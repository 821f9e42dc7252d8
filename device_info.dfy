/** The device record of include/device_config.h and the three layers
    load_device_config merges into it (src/device_config.cpp): compiled-in
    defaults, the fields of the registration file, and the environment. */
module DeviceRecord {
  import opened Text
  import opened JsonExtract

  datatype DeviceInfo = DeviceInfo(
    version: string,
    serialNumber: string,
    modelType: string,
    firmwareVersion: string,
    hardwareId: string,
    manufacturer: string,
    deviceType: string,
    hardwareRevision: string,
    productionDate: string,
    warrantyPeriod: string,
    supportContact: string,
    documentationUrl: string,
    buildDate: string,
    mode: string,
    systemUuid: string,
    endpointPort: string)

  /** Stand-in for the BUILD_DATE macro (__DATE__ " " __TIME__). */
  const BuildDateText: string := "Jan  1 2024 00:00:00"

  const DefaultEndpointPort: string := "3546"

  /** A default-constructed record: every string empty. */
  function EmptyInfo(): DeviceInfo {
    DeviceInfo("", "", "", "", "", "", "", "", "", "", "", "", "", "", "", "")
  }

  /** get_default_device_info */
  function DefaultDeviceInfo(): DeviceInfo {
    DeviceInfo(
      "1.0.0", "X99EINTE2314", "GTR_PRO", "1.0.0", "unknown", "CVEDIX",
      "AI_VISION_SYSTEM", "REV_A", "2024-01-01", "24", "support@cvedix.com",
      "https://docs.cvedix.com", BuildDateText, "local", "", DefaultEndpointPort)
  }

  // ---------------------------------------------------------------------
  // Fields by name, for stating the merge rules field by field

  datatype Field =
    | Version | SerialNumber | ModelType | FirmwareVersion | HardwareId
    | Manufacturer | DeviceType | HardwareRevision | ProductionDate
    | WarrantyPeriod | SupportContact | DocumentationUrl | BuildDate | Mode
    | SystemUuid | EndpointPort

  function Get(i: DeviceInfo, f: Field): string {
    match f
    case Version => i.version
    case SerialNumber => i.serialNumber
    case ModelType => i.modelType
    case FirmwareVersion => i.firmwareVersion
    case HardwareId => i.hardwareId
    case Manufacturer => i.manufacturer
    case DeviceType => i.deviceType
    case HardwareRevision => i.hardwareRevision
    case ProductionDate => i.productionDate
    case WarrantyPeriod => i.warrantyPeriod
    case SupportContact => i.supportContact
    case DocumentationUrl => i.documentationUrl
    case BuildDate => i.buildDate
    case Mode => i.mode
    case SystemUuid => i.systemUuid
    case EndpointPort => i.endpointPort
  }

  /** The JSON key of the nine fields a registration sets inside its
      "device" object. */
  function RegisteredKey(f: Field): Option<string> {
    match f
    case Version => Some("version")
    case SerialNumber => Some("serial_number")
    case ModelType => Some("model_type")
    case DeviceType => Some("device_type")
    case HardwareRevision => Some("hardware_revision")
    case ProductionDate => Some("production_date")
    case WarrantyPeriod => Some("warranty_period")
    case BuildDate => Some("build_date")
    case Mode => Some("mode")
    case _ => None
  }

  /** The JSON key of the ten fields read back from the registration file:
      the nine registered ones and endpoint_port. */
  function FileKey(f: Field): Option<string> {
    if f == EndpointPort then Some("endpoint_port") else RegisteredKey(f)
  }

  /** The environment variable of the thirteen fields that have an
      unconditional override. */
  function EnvVar(f: Field): Option<string> {
    match f
    case Version => Some("DEVICE_VERSION")
    case SerialNumber => Some("DEVICE_SERIAL_NUMBER")
    case ModelType => Some("DEVICE_MODEL_TYPE")
    case FirmwareVersion => Some("DEVICE_FIRMWARE_VERSION")
    case HardwareId => Some("DEVICE_HARDWARE_ID")
    case Manufacturer => Some("DEVICE_MANUFACTURER")
    case DeviceType => Some("DEVICE_TYPE")
    case HardwareRevision => Some("DEVICE_HARDWARE_REVISION")
    case ProductionDate => Some("DEVICE_PRODUCTION_DATE")
    case WarrantyPeriod => Some("DEVICE_WARRANTY_PERIOD")
    case SupportContact => Some("DEVICE_SUPPORT_CONTACT")
    case DocumentationUrl => Some("DEVICE_DOCUMENTATION_URL")
    case Mode => Some("DEVICE_MODE")
    case _ => None
  }

  const EndpointPortVar: string := "DEVICE_ENDPOINT_PORT"

  // ---------------------------------------------------------------------
  // The merge layers

  /** The nine registered fields of `obj`, each overwriting only when its
      extracted value is non-empty. */
  function RegisteredOverlay(i: DeviceInfo, obj: string): DeviceInfo {
    i.(version := NonEmptyOr(JsonString(obj, "version"), i.version),
       serialNumber := NonEmptyOr(JsonString(obj, "serial_number"), i.serialNumber),
       modelType := NonEmptyOr(JsonString(obj, "model_type"), i.modelType),
       deviceType := NonEmptyOr(JsonString(obj, "device_type"), i.deviceType),
       hardwareRevision := NonEmptyOr(JsonString(obj, "hardware_revision"), i.hardwareRevision),
       productionDate := NonEmptyOr(JsonString(obj, "production_date"), i.productionDate),
       warrantyPeriod := NonEmptyOr(JsonString(obj, "warranty_period"), i.warrantyPeriod),
       buildDate := NonEmptyOr(JsonString(obj, "build_date"), i.buildDate),
       mode := NonEmptyOr(JsonString(obj, "mode"), i.mode))
  }

  /** The port, read from `json`, overwriting only when non-empty. */
  function PortOverlay(i: DeviceInfo, json: string): DeviceInfo {
    i.(endpointPort := NonEmptyOr(JsonString(json, "endpoint_port"), i.endpointPort))
  }

  /** The ten fields load_device_config reads from the registration file. */
  function FileOverlay(i: DeviceInfo, content: string): DeviceInfo {
    PortOverlay(RegisteredOverlay(i, content), content)
  }

  function EnvOr(env: map<string, string>, name: string, current: string): string {
    if name in env then env[name] else current
  }

  /** The environment layer: a variable that is set overwrites, even with
      the empty string; DEVICE_ENDPOINT_PORT only fills an empty port. */
  function EnvOverlay(i: DeviceInfo, env: map<string, string>): DeviceInfo {
    i.(version := EnvOr(env, "DEVICE_VERSION", i.version),
       serialNumber := EnvOr(env, "DEVICE_SERIAL_NUMBER", i.serialNumber),
       modelType := EnvOr(env, "DEVICE_MODEL_TYPE", i.modelType),
       firmwareVersion := EnvOr(env, "DEVICE_FIRMWARE_VERSION", i.firmwareVersion),
       hardwareId := EnvOr(env, "DEVICE_HARDWARE_ID", i.hardwareId),
       manufacturer := EnvOr(env, "DEVICE_MANUFACTURER", i.manufacturer),
       deviceType := EnvOr(env, "DEVICE_TYPE", i.deviceType),
       hardwareRevision := EnvOr(env, "DEVICE_HARDWARE_REVISION", i.hardwareRevision),
       productionDate := EnvOr(env, "DEVICE_PRODUCTION_DATE", i.productionDate),
       warrantyPeriod := EnvOr(env, "DEVICE_WARRANTY_PERIOD", i.warrantyPeriod),
       supportContact := EnvOr(env, "DEVICE_SUPPORT_CONTACT", i.supportContact),
       documentationUrl := EnvOr(env, "DEVICE_DOCUMENTATION_URL", i.documentationUrl),
       mode := EnvOr(env, "DEVICE_MODE", i.mode),
       endpointPort := if EndpointPortVar in env && i.endpointPort == "" then env[EndpointPortVar] else i.endpointPort)
  }

  /** The record before the UUID is filled in: defaults, then the file
      when one opened, then the environment. */
  function MergedInfo(file: Option<string>, env: map<string, string>): DeviceInfo {
    var base := match file
      case None => DefaultDeviceInfo()
      case Some(content) => FileOverlay(DefaultDeviceInfo(), content);
    EnvOverlay(base, env)
  }

  // ---------------------------------------------------------------------
  // The merge rules, field by field

  /** The registered overlay touches the nine registered fields and no
      other, each only with a non-empty value. */
  lemma RegisteredOverlayField(i: DeviceInfo, obj: string, f: Field)
    ensures Get(RegisteredOverlay(i, obj), f) ==
              match RegisteredKey(f)
              case None => Get(i, f)
              case Some(k) => if JsonString(obj, k) != "" then JsonString(obj, k) else Get(i, f)
  {
  }

  /** The value a field ends up with: the environment variable if it is
      set, else a non-empty file value, else the default.  The port has no
      effective environment override and the UUID is set afterwards. */
  function Precedence(f: Field, file: Option<string>, env: map<string, string>): string {
    if EnvVar(f).Some? && EnvVar(f).value in env then env[EnvVar(f).value]
    else if FileKey(f).Some? && file.Some? && JsonString(file.value, FileKey(f).value) != "" then
      JsonString(file.value, FileKey(f).value)
    else Get(DefaultDeviceInfo(), f)
  }

  /** The environment layer touches the thirteen fields with a variable
      (overwriting whenever the variable is set) and the port (only when
      it is empty). */
  lemma EnvOverlayField(i: DeviceInfo, env: map<string, string>, f: Field)
    ensures Get(EnvOverlay(i, env), f) ==
              if EnvVar(f).Some? && EnvVar(f).value in env then env[EnvVar(f).value]
              else if f == EndpointPort && EndpointPortVar in env && i.endpointPort == "" then env[EndpointPortVar]
              else Get(i, f)
  {
    match f
    case Version =>
    case SerialNumber =>
    case ModelType =>
    case FirmwareVersion =>
    case HardwareId =>
    case Manufacturer =>
    case DeviceType =>
    case HardwareRevision =>
    case ProductionDate =>
    case WarrantyPeriod =>
    case SupportContact =>
    case DocumentationUrl =>
    case BuildDate =>
    case Mode =>
    case SystemUuid =>
    case EndpointPort =>
  }

  /** The file layer touches the ten fields with a file key, each only with
      a non-empty value. */
  lemma FileOverlayField(i: DeviceInfo, content: string, f: Field)
    ensures Get(FileOverlay(i, content), f) ==
              match FileKey(f)
              case None => Get(i, f)
              case Some(k) => if JsonString(content, k) != "" then JsonString(content, k) else Get(i, f)
  {
    RegisteredOverlayField(i, content, f);
  }

  /** Environment variables are applied after the file and so beat it;
      files beat defaults; DEVICE_ENDPOINT_PORT never takes effect. */
  lemma MergePrecedence(file: Option<string>, env: map<string, string>, f: Field)
    requires f != SystemUuid
    ensures Get(MergedInfo(file, env), f) == Precedence(f, file, env)
  {
    var base := match file
      case None => DefaultDeviceInfo()
      case Some(content) => FileOverlay(DefaultDeviceInfo(), content);
    match file
    case None =>
    case Some(content) =>
      FileOverlayField(DefaultDeviceInfo(), content, f);
      FileOverlayField(DefaultDeviceInfo(), content, EndpointPort);
    assert base.endpointPort != "";
    EnvOverlayField(base, env, f);
  }

  /** The merged port is never empty, whatever the environment holds. */
  lemma MergedPortNonEmpty(file: Option<string>, env: map<string, string>)
    ensures MergedInfo(file, env).endpointPort != ""
    ensures MergedInfo(file, env).endpointPort == MergedInfo(file, env - {EndpointPortVar}).endpointPort
  {
    MergePrecedence(file, env, EndpointPort);
    MergePrecedence(file, env - {EndpointPortVar}, EndpointPort);
  }
}
