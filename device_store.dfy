/** The device configuration store of src/device_config.cpp: the five
    file-scope statics (the record, the loaded flag, the instance cache,
    the cached UUID and the modification time of the registration file
    last seen) as the fields of one object, together with the registration
    files it reads and writes.  The environment and the UUID sources are
    inputs; so are the paths that can be opened for writing, the clock and
    whether the write stream stayed good. */
module DeviceConfig {
  import opened Text
  import opened JsonExtract
  import opened JsonEscape
  import opened DeviceRecord
  import opened UuidSource
  import opened DeviceSave
  import opened InstanceList

  /** A registration file: its content and its modification time. */
  datatype FileEntry = FileEntry(content: string, mtime: int)

  type Files = map<string, FileEntry>

  /** What the store reads from the process and the machine. */
  datatype Host = Host(env: map<string, string>, uuid: Sources)

  /** A snapshot of the store and the files. */
  datatype Store = Store(
    info: DeviceInfo,
    loaded: bool,
    instances: seq<string>,
    cachedUuid: string,
    lastMtime: int,
    files: Files)

  const LocalPath: string := "./device_registered.json"
  const SystemPath: string := "/etc/device_registered.json"
  const InstancesVar: string := "DEVICE_INSTANCES"

  /** The registration file the store reads: the one in the working
      directory first, then the one under /etc.  A file that exists can be
      opened and stat'ed. */
  function DeviceFile(files: Files): (r: Option<FileEntry>)
    ensures r.Some? <==> LocalPath in files || SystemPath in files
    ensures LocalPath in files ==> r == Some(files[LocalPath])
  {
    if LocalPath in files then Some(files[LocalPath])
    else if SystemPath in files then Some(files[SystemPath])
    else None
  }

  function Content(f: Option<FileEntry>): Option<string> {
    match f
    case None => None
    case Some(e) => Some(e.content)
  }

  /** The instances a registration file lists (none without a file). */
  function FileInstances(f: Option<FileEntry>): seq<string> {
    match f
    case None => []
    case Some(e) => JsonArray(e.content, "instances")
  }

  /** The instances DEVICE_INSTANCES lists (none when unset). */
  function EnvInstances(env: map<string, string>): seq<string> {
    if InstancesVar in env then EnvEntries(env[InstancesVar]) else []
  }

  /** The state every reachable store is in: once loaded, the record holds
      the cached UUID, which is never empty, and a non-empty port. */
  predicate Valid(s: Store) {
    s.loaded ==> s.info.systemUuid == s.cachedUuid && s.cachedUuid != "" && s.info.endpointPort != ""
  }

  // ---------------------------------------------------------------------
  // The operations on a snapshot

  /** The store at program start. */
  function Initial(files: Files): Store {
    Store(EmptyInfo(), false, [], "", 0, files)
  }

  /** load_device_config: nothing when already loaded; else the defaults,
      the ten fields of the registration file, the environment and the
      UUID, and the file's instances when it lists any. */
  function Loaded(s: Store, h: Host): Store {
    if s.loaded then s
    else
      var file := DeviceFile(s.files);
      var uuid := ReadUuid(s.cachedUuid, h.uuid);
      var xs := FileInstances(file);
      s.(info := MergedInfo(Content(file), h.env).(systemUuid := uuid),
         loaded := true,
         instances := if xs != [] then xs else s.instances,
         cachedUuid := uuid)
  }

  /** reload_device_config: the flag, the cache and the marker are
      cleared, the store is loaded, and the file's instances and
      modification time are taken again. */
  function Reloaded(s: Store, h: Host): Store {
    var t := Loaded(s.(loaded := false, instances := [], lastMtime := 0), h);
    match DeviceFile(s.files)
    case None => t
    case Some(e) =>
      var xs := JsonArray(e.content, "instances");
      t.(instances := if xs != [] then xs else t.instances, lastMtime := e.mtime)
  }

  /** get_device_instances: a changed modification time discards the
      cache; a non-empty cache is the answer; else the file's instances,
      else those of DEVICE_INSTANCES, else the system UUID alone, which
      then become the cache. */
  function InstancesRead(s: Store, h: Host): (Store, seq<string>) {
    var s1 := Refreshed(s);
    if s1.instances != [] then (s1, s1.instances) else Uncached(s1, h)
  }

  /** A file whose modification time differs from the one last seen
      discards the cache and becomes the one last seen. */
  function Refreshed(s: Store): Store {
    var file := DeviceFile(s.files);
    if file.Some? && file.value.mtime != s.lastMtime then s.(instances := [], lastMtime := file.value.mtime) else s
  }

  /** The instances when the cache is empty: the file's, else those of
      DEVICE_INSTANCES, else the system UUID alone; they become the
      cache. */
  function Uncached(s: Store, h: Host): (Store, seq<string>) {
    var file := DeviceFile(s.files);
    var s2 := if file.Some? then s.(lastMtime := file.value.mtime) else s;
    var xs := FileInstances(file);
    if xs != [] then (s2.(instances := xs), xs)
    else
      var ys := EnvInstances(h.env);
      if ys != [] then (s2.(instances := ys), ys)
      else
        var s3 := Loaded(s2, h);
        (s3.(instances := [s3.info.systemUuid]), [s3.info.systemUuid])
  }

  /** The "device" object of a registration request: from the first '{'
      after the key "device" to its matching '}'. */
  function DeviceObject(json: string): (r: Option<string>)
    ensures r.Some? ==> |r.value| >= 2 && r.value[0] == '{' && r.value[|r.value| - 1] == '}' && Depth(r.value) == 0
  {
    match Find(json, "\"device\"", 0)
    case None => None
    case Some(d) =>
      match Find(json, "{", d)
      case None => None
      case Some(b) =>
        assert json[b..b + 1][0] == json[b];
        match MatchBrace(json, b)
        case None => None
        case Some(e) => Some(json[b..e])
  }

  /** The search for the "device" object in update_device_config_from_json. */
  method FindDeviceObject(json: string) returns (r: Option<string>)
    ensures r == DeviceObject(json)
  {
    var d := Find(json, "\"device\"", 0);
    if d.None? {
      return None;
    }
    var b := Find(json, "{", d.value);
    if b.None? {
      return None;
    }
    assert json[b.value..b.value + 1][0] == json[b.value];
    var e := MatchingBrace(json, b.value);
    if e.None? {
      return None;
    }
    return Some(json[b.value..e.value]);
  }

  /** update_device_config_from_json: the store is loaded; without a
      "device" object nothing else happens and the answer is false; else
      the nine registered fields come from the object, the port and the
      instances from the whole request, and the answer is true. */
  function Updated(s: Store, h: Host, json: string): (Store, bool) {
    var t := Loaded(s, h);
    match DeviceObject(json)
    case None => (t, false)
    case Some(obj) =>
      var xs := JsonArray(json, "instances");
      (t.(info := PortOverlay(RegisteredOverlay(t.info, obj), json),
          instances := if xs != [] then xs else t.instances), true)
  }

  /** The path save_device_config can open for writing. */
  function SavePath(writable: set<string>): Option<string> {
    if LocalPath in writable then Some(LocalPath)
    else if SystemPath in writable then Some(SystemPath)
    else None
  }

  /** save_device_config: opening the path truncates it; the instances
      are the cache or, when it is empty, what get_device_instances then
      reads; the text written is that of the record as it was before that
      read.  A stream that went bad answers false; the file then holds
      whatever part of the text was flushed, for which the empty text of
      the truncation stands in.  Else the marker takes the time of the
      write. */
  function Saved(s: Store, h: Host, writable: set<string>, now: int, good: bool): (Store, bool) {
    match SavePath(writable)
    case None => (s, false)
    case Some(p) =>
      var s1 := s.(files := s.files[p := FileEntry("", now)]);
      var (s2, xs) := if s.instances != [] then (s1, s.instances) else InstancesRead(s1, h);
      if !good then (s2, false)
      else (s2.(files := s2.files[p := FileEntry(SaveText(s.info, xs), now)], lastMtime := now), true)
  }

  /** get_endpoint_port: the store is loaded and its port is the answer,
      "3546" when it is empty. */
  function PortRead(s: Store, h: Host): (Store, string) {
    var t := Loaded(s, h);
    (t, if t.info.endpointPort == "" then DefaultEndpointPort else t.info.endpointPort)
  }

  // ---------------------------------------------------------------------
  // The field-by-field steps shared by loading and updating

  /** `if (!v.empty()) field = v;` */
  method KeepNonEmpty(v: string, current: string) returns (r: string)
    ensures r == NonEmptyOr(v, current)
  {
    r := current;
    if v != "" {
      r := v;
    }
  }

  /** `if (const char* v = getenv(name)) field = v;` */
  method EnvValue(env: map<string, string>, name: string, current: string) returns (r: string)
    ensures r == EnvOr(env, name, current)
  {
    r := current;
    if name in env {
      r := env[name];
    }
  }

  /** The nine extract-and-overwrite-if-non-empty steps. */
  method ReadRegisteredFields(i: DeviceInfo, obj: string) returns (r: DeviceInfo)
    ensures r == RegisteredOverlay(i, obj)
  {
    r := i;
    var v := ExtractJsonString(obj, "version");
    var f := KeepNonEmpty(v, r.version);
    r := r.(version := f);
    v := ExtractJsonString(obj, "serial_number");
    f := KeepNonEmpty(v, r.serialNumber);
    r := r.(serialNumber := f);
    v := ExtractJsonString(obj, "model_type");
    f := KeepNonEmpty(v, r.modelType);
    r := r.(modelType := f);
    v := ExtractJsonString(obj, "device_type");
    f := KeepNonEmpty(v, r.deviceType);
    r := r.(deviceType := f);
    v := ExtractJsonString(obj, "hardware_revision");
    f := KeepNonEmpty(v, r.hardwareRevision);
    r := r.(hardwareRevision := f);
    v := ExtractJsonString(obj, "production_date");
    f := KeepNonEmpty(v, r.productionDate);
    r := r.(productionDate := f);
    v := ExtractJsonString(obj, "warranty_period");
    f := KeepNonEmpty(v, r.warrantyPeriod);
    r := r.(warrantyPeriod := f);
    v := ExtractJsonString(obj, "build_date");
    f := KeepNonEmpty(v, r.buildDate);
    r := r.(buildDate := f);
    v := ExtractJsonString(obj, "mode");
    f := KeepNonEmpty(v, r.mode);
    r := r.(mode := f);
  }

  /** The port step: overwrite when the extracted value is non-empty. */
  method ReadPort(i: DeviceInfo, json: string) returns (r: DeviceInfo)
    ensures r == PortOverlay(i, json)
  {
    var port := ExtractJsonString(json, "endpoint_port");
    var f := KeepNonEmpty(port, i.endpointPort);
    r := i.(endpointPort := f);
  }

  /** The getenv steps of load_device_config. */
  method ApplyEnvironment(i: DeviceInfo, env: map<string, string>) returns (r: DeviceInfo)
    ensures r == EnvOverlay(i, env)
  {
    r := i;
    var f := EnvValue(env, "DEVICE_VERSION", r.version);
    r := r.(version := f);
    f := EnvValue(env, "DEVICE_SERIAL_NUMBER", r.serialNumber);
    r := r.(serialNumber := f);
    f := EnvValue(env, "DEVICE_MODEL_TYPE", r.modelType);
    r := r.(modelType := f);
    f := EnvValue(env, "DEVICE_FIRMWARE_VERSION", r.firmwareVersion);
    r := r.(firmwareVersion := f);
    f := EnvValue(env, "DEVICE_HARDWARE_ID", r.hardwareId);
    r := r.(hardwareId := f);
    f := EnvValue(env, "DEVICE_MANUFACTURER", r.manufacturer);
    r := r.(manufacturer := f);
    f := EnvValue(env, "DEVICE_TYPE", r.deviceType);
    r := r.(deviceType := f);
    f := EnvValue(env, "DEVICE_HARDWARE_REVISION", r.hardwareRevision);
    r := r.(hardwareRevision := f);
    f := EnvValue(env, "DEVICE_PRODUCTION_DATE", r.productionDate);
    r := r.(productionDate := f);
    f := EnvValue(env, "DEVICE_WARRANTY_PERIOD", r.warrantyPeriod);
    r := r.(warrantyPeriod := f);
    f := EnvValue(env, "DEVICE_SUPPORT_CONTACT", r.supportContact);
    r := r.(supportContact := f);
    f := EnvValue(env, "DEVICE_DOCUMENTATION_URL", r.documentationUrl);
    r := r.(documentationUrl := f);
    f := EnvValue(env, "DEVICE_MODE", r.mode);
    r := r.(mode := f);
    if EndpointPortVar in env && r.endpointPort == "" {
      r := r.(endpointPort := env[EndpointPortVar]);
    }
  }

  /** One `  "key": "<escaped value>",` line. */
  method WriteField(key: string, value: string) returns (line: string)
    ensures line == FieldLine(key, value)
  {
    var e := EscapeJson(value);
    line := "  \"" + key + "\": \"" + e + "\",\n";
  }

  /** The ten field lines, in the order they are written. */
  method WriteFields(i: DeviceInfo) returns (out: string)
    ensures out == FieldLines(Fields(i))
  {
    var line := WriteField("version", i.version);
    out := line;
    line := WriteField("serial_number", i.serialNumber);
    out := out + line;
    line := WriteField("model_type", i.modelType);
    out := out + line;
    line := WriteField("device_type", i.deviceType);
    out := out + line;
    line := WriteField("hardware_revision", i.hardwareRevision);
    out := out + line;
    line := WriteField("production_date", i.productionDate);
    out := out + line;
    line := WriteField("warranty_period", i.warrantyPeriod);
    out := out + line;
    line := WriteField("build_date", i.buildDate);
    out := out + line;
    line := WriteField("mode", i.mode);
    out := out + line;
    line := WriteField("endpoint_port", i.endpointPort);
    out := out + line;
    FieldsText(i);
  }

  /** The field lines of a record, one after the other. */
  lemma FieldsText(i: DeviceInfo)
    ensures FieldLines(Fields(i)) ==
              FieldLine("version", i.version) + FieldLine("serial_number", i.serialNumber)
              + FieldLine("model_type", i.modelType) + FieldLine("device_type", i.deviceType)
              + FieldLine("hardware_revision", i.hardwareRevision)
              + FieldLine("production_date", i.productionDate)
              + FieldLine("warranty_period", i.warrantyPeriod) + FieldLine("build_date", i.buildDate)
              + FieldLine("mode", i.mode) + FieldLine("endpoint_port", i.endpointPort)
  {
    TenLines(Fields(i));
  }

  function Line(ps: seq<(string, string)>, k: nat): string
    requires k < |ps|
  {
    FieldLine(ps[k].0, ps[k].1)
  }

  lemma TenLines(ps: seq<(string, string)>)
    requires |ps| == 10
    ensures FieldLines(ps) ==
              Line(ps, 0) + Line(ps, 1) + Line(ps, 2) + Line(ps, 3) + Line(ps, 4)
              + Line(ps, 5) + Line(ps, 6) + Line(ps, 7) + Line(ps, 8) + Line(ps, 9)
  {
    assert ps[..0] == [];
    FieldLinesSnoc(ps, 0);
    assert FieldLines(ps[..1]) == Line(ps, 0);
    FieldLinesSnoc(ps, 1);
    assert FieldLines(ps[..2]) == Line(ps, 0) + Line(ps, 1);
    FieldLinesSnoc(ps, 2);
    assert FieldLines(ps[..3]) == Line(ps, 0) + Line(ps, 1) + Line(ps, 2);
    FieldLinesSnoc(ps, 3);
    assert FieldLines(ps[..4]) == Line(ps, 0) + Line(ps, 1) + Line(ps, 2) + Line(ps, 3);
    FieldLinesSnoc(ps, 4);
    assert FieldLines(ps[..5]) == Line(ps, 0) + Line(ps, 1) + Line(ps, 2) + Line(ps, 3) + Line(ps, 4);
    FieldLinesSnoc(ps, 5);
    assert FieldLines(ps[..6]) == Line(ps, 0) + Line(ps, 1) + Line(ps, 2) + Line(ps, 3) + Line(ps, 4) + Line(ps, 5);
    FieldLinesSnoc(ps, 6);
    assert FieldLines(ps[..7]) == Line(ps, 0) + Line(ps, 1) + Line(ps, 2) + Line(ps, 3) + Line(ps, 4) + Line(ps, 5) + Line(ps, 6);
    FieldLinesSnoc(ps, 7);
    assert FieldLines(ps[..8]) == Line(ps, 0) + Line(ps, 1) + Line(ps, 2) + Line(ps, 3) + Line(ps, 4) + Line(ps, 5) + Line(ps, 6) + Line(ps, 7);
    FieldLinesSnoc(ps, 8);
    assert FieldLines(ps[..9]) == Line(ps, 0) + Line(ps, 1) + Line(ps, 2) + Line(ps, 3) + Line(ps, 4) + Line(ps, 5) + Line(ps, 6) + Line(ps, 7) + Line(ps, 8);
    FieldLinesSnoc(ps, 9);
    assert FieldLines(ps[..10]) == Line(ps, 0) + Line(ps, 1) + Line(ps, 2) + Line(ps, 3) + Line(ps, 4) + Line(ps, 5) + Line(ps, 6) + Line(ps, 7) + Line(ps, 8) + Line(ps, 9);
    assert ps[..10] == ps;
  }

  /** The instance loop: one quoted, escaped line per instance, a comma on
      all but the last. */
  method WriteItems(xs: seq<string>) returns (out: string)
    ensures out == ItemLines(xs, 0, |xs|)
  {
    out := "";
    for k := 0 to |xs|
      invariant out == ItemLines(xs, 0, k)
    {
      var e := EscapeJson(xs[k]);
      var comma := if k < |xs| - 1 then "," else "";
      out := out + ("    \"" + e + "\"" + comma + "\n");
    }
  }

  /** The field lines of a prefix grow by one line at a time. */
  lemma {:induction false} FieldLinesSnoc(ps: seq<(string, string)>, k: nat)
    requires k < |ps|
    decreases k
    ensures FieldLines(ps[..k + 1]) == FieldLines(ps[..k]) + FieldLine(ps[k].0, ps[k].1)
  {
    if k == 0 {
      assert ps[..1][1..] == [];
    } else {
      var qs := ps[1..];
      FieldLinesSnoc(qs, k - 1);
      FieldLinesCons(ps, k + 1);
      FieldLinesCons(ps, k);
      Assoc(FieldLine(ps[0].0, ps[0].1), FieldLines(qs[..k - 1]), FieldLine(ps[k].0, ps[k].1));
    }
  }

  lemma FieldLinesCons(ps: seq<(string, string)>, n: nat)
    requires 1 <= n <= |ps|
    ensures FieldLines(ps[..n]) == FieldLine(ps[0].0, ps[0].1) + FieldLines(ps[1..][..n - 1])
  {
    assert ps[..n][1..] == ps[1..][..n - 1];
  }

  // ---------------------------------------------------------------------
  // The store

  /** The dmidecode step of read_system_uuid: the line it prints, without
      its newline and cut at a NUL, unless that is empty or a rejected
      value. */
  method ReadDmidecode(out: Option<string>) returns (r: Option<string>)
    ensures r == DmidecodeUuid(out)
  {
    if out.None? || out.value == [] {
      return None;
    }
    var v := CString(Fgets(out.value, FgetsLimit));
    if v != [] && v[|v| - 1] == '\n' {
      v := v[..|v| - 1];
    }
    if v != "" && v != NotSpecified && v != ZeroUuid {
      return Some(v);
    }
    return None;
  }

  class DeviceStore {
    var info: DeviceInfo
    var loaded: bool
    var instances: seq<string>
    var cachedUuid: string
    var lastMtime: int
    var files: Files

    function State(): Store
      reads this
    {
      Store(info, loaded, instances, cachedUuid, lastMtime, files)
    }

    /** The statics at program start, over the given files. */
    constructor (fs: Files)
      ensures State() == Initial(fs)
    {
      info := EmptyInfo();
      loaded := false;
      instances := [];
      cachedUuid := "";
      lastMtime := 0;
      files := fs;
    }

    /** read_system_uuid: the cache, else the first source that yields a
        UUID, which is then cached. */
    method ReadSystemUuid(src: Sources) returns (u: string)
      modifies this
      ensures u == ReadUuid(old(cachedUuid), src)
      ensures State() == old(State()).(cachedUuid := u)
    {
      if cachedUuid != "" {
        u := cachedUuid;
        return;
      }
      if src.machineId.Some? {
        var line := FirstLine(src.machineId.value);
        if line != "" {
          if |line| >= 32 {
            u := line[0..8] + "-" + line[8..12] + "-" + line[12..16] + "-" + line[16..20] + "-" + line[20..32];
          } else {
            u := line;
          }
          cachedUuid := u;
          return;
        }
      }
      if src.dmiUuid.Some? {
        var line := FirstLine(src.dmiUuid.value);
        if line != "" && line != ZeroUuid {
          u := line;
          cachedUuid := u;
          return;
        }
      }
      var d := ReadDmidecode(src.dmidecode);
      u := if d.Some? then d.value else FallbackUuid;
      cachedUuid := u;
    }

    /** set_device_instances */
    method SetDeviceInstances(xs: seq<string>)
      modifies this
      ensures State() == old(State()).(instances := xs)
    {
      instances := xs;
    }

    /** load_device_config */
    method Load(h: Host)
      modifies this
      ensures State() == Loaded(old(State()), h)
    {
      if loaded {
        return;
      }
      var i := DefaultDeviceInfo();
      var file := DeviceFile(files);
      if file.Some? {
        var content := file.value.content;
        i := ReadRegisteredFields(i, content);
        i := ReadPort(i, content);
        var xs := ExtractJsonArray(content, "instances");
        if xs != [] {
          SetDeviceInstances(xs);
        }
      }
      i := ApplyEnvironment(i, h.env);
      var u := ReadSystemUuid(h.uuid);
      info := i.(systemUuid := u);
      loaded := true;
    }

    /** reload_device_config */
    method Reload(h: Host)
      modifies this
      ensures State() == Reloaded(old(State()), h)
    {
      loaded := false;
      instances := [];
      lastMtime := 0;
      Load(h);
      var file := DeviceFile(files);
      if file.Some? {
        var xs := ExtractJsonArray(file.value.content, "instances");
        if xs != [] {
          instances := xs;
        }
        lastMtime := file.value.mtime;
      }
    }

    /** get_device_info */
    method GetDeviceInfo(h: Host) returns (i: DeviceInfo)
      modifies this
      ensures State() == Loaded(old(State()), h)
      ensures i == info
    {
      if !loaded {
        Load(h);
      }
      i := info;
    }

    /** get_device_instances */
    method GetDeviceInstances(h: Host) returns (xs: seq<string>)
      modifies this
      ensures (State(), xs) == InstancesRead(old(State()), h)
    {
      var file := DeviceFile(files);
      if file.Some? && file.value.mtime != lastMtime {
        instances := [];
        lastMtime := file.value.mtime;
      }
      assert State() == Refreshed(old(State()));
      if instances != [] {
        return instances;
      }
      xs := ReadUncached(h);
    }

    /** The part of get_device_instances after an empty cache. */
    method ReadUncached(h: Host) returns (xs: seq<string>)
      modifies this
      ensures (State(), xs) == Uncached(old(State()), h)
    {
      var file := DeviceFile(files);
      xs := [];
      if file.Some? {
        xs := ExtractJsonArray(file.value.content, "instances");
        lastMtime := file.value.mtime;
      }
      if xs != [] {
        instances := xs;
        return;
      }
      if InstancesVar in h.env {
        xs := SplitInstances(h.env[InstancesVar]);
      }
      if xs == [] {
        var i := GetDeviceInfo(h);
        xs := [i.systemUuid];
      }
      instances := xs;
    }

    /** update_device_config_from_json */
    method Update(h: Host, json: string) returns (ok: bool)
      modifies this
      ensures (State(), ok) == Updated(old(State()), h, json)
    {
      if !loaded {
        Load(h);
      }
      var o := FindDeviceObject(json);
      if o.None? {
        return false;
      }
      var obj := o.value;
      var i := ReadRegisteredFields(info, obj);
      i := ReadPort(i, json);
      info := i;
      var xs := ExtractJsonArray(json, "instances");
      if xs != [] {
        SetDeviceInstances(xs);
      }
      return true;
    }

    /** save_device_config */
    method Save(h: Host, writable: set<string>, now: int, good: bool) returns (ok: bool)
      modifies this
      ensures (State(), ok) == Saved(old(State()), h, writable, now, good)
    {
      var path: string;
      if LocalPath in writable {
        path := LocalPath;
      } else if SystemPath in writable {
        path := SystemPath;
      } else {
        return false;
      }
      files := files[path := FileEntry("", now)];
      var fields := WriteFields(info);
      var out := "{\n" + fields;
      var xs := instances;
      if xs == [] {
        xs := GetDeviceInstances(h);
      }
      var items := WriteItems(xs);
      out := out + (InstancesHeader + items + "  ]\n" + "}\n");
      if !good {
        return false;
      }
      files := files[path := FileEntry(out, now)];
      lastMtime := now;
      return true;
    }

    /** get_endpoint_port */
    method GetEndpointPort(h: Host) returns (port: string)
      modifies this
      ensures (State(), port) == PortRead(old(State()), h)
    {
      if !loaded {
        Load(h);
      }
      port := if info.endpointPort == "" then DefaultEndpointPort else info.endpointPort;
    }
  }

  // ---------------------------------------------------------------------
  // Properties

  /** Loading leaves the store loaded and valid, from any state; loading
      again changes nothing. */
  lemma LoadedValid(s: Store, h: Host)
    requires Valid(s)
    ensures Loaded(s, h).loaded && Valid(Loaded(s, h))
    ensures Loaded(Loaded(s, h), h) == Loaded(s, h)
    ensures Loaded(s, h).files == s.files
  {
    if !s.loaded {
      MergedPortNonEmpty(Content(DeviceFile(s.files)), h.env);
    }
  }

  /** A first load gives each field the value the layers decide (the
      environment over the file over the defaults) and the system UUID
      the value read_system_uuid returns. */
  lemma LoadedRecord(s: Store, h: Host, f: Field)
    requires !s.loaded
    ensures Get(Loaded(s, h).info, f) ==
              if f == SystemUuid then ReadUuid(s.cachedUuid, h.uuid)
              else Precedence(f, Content(DeviceFile(s.files)), h.env)
    ensures Loaded(s, h).cachedUuid == ReadUuid(s.cachedUuid, h.uuid)
  {
    var m := MergedInfo(Content(DeviceFile(s.files)), h.env);
    if f != SystemUuid {
      MergePrecedence(Content(DeviceFile(s.files)), h.env, f);
      assert Get(m.(systemUuid := ReadUuid(s.cachedUuid, h.uuid)), f) == Get(m, f);
    }
  }

  /** Once a UUID is cached, no operation changes it or reads a source
      again. */
  lemma UuidStable(s: Store, h: Host, json: string, writable: set<string>, now: int, good: bool)
    requires s.cachedUuid != ""
    ensures Loaded(s, h).cachedUuid == s.cachedUuid
    ensures Reloaded(s, h).cachedUuid == s.cachedUuid
    ensures Reloaded(s, h).info.systemUuid == s.cachedUuid
    ensures InstancesRead(s, h).0.cachedUuid == s.cachedUuid
    ensures Updated(s, h, json).0.cachedUuid == s.cachedUuid
    ensures Saved(s, h, writable, now, good).0.cachedUuid == s.cachedUuid
  {
    InstancesUuid(s, h);
    SavedUuid(s, h, writable, now, good);
  }

  lemma InstancesUuid(s: Store, h: Host)
    requires s.cachedUuid != ""
    ensures InstancesRead(s, h).0.cachedUuid == s.cachedUuid
  {
  }

  lemma SavedUuid(s: Store, h: Host, writable: set<string>, now: int, good: bool)
    requires s.cachedUuid != ""
    ensures Saved(s, h, writable, now, good).0.cachedUuid == s.cachedUuid
  {
    if SavePath(writable).Some? {
      var p := SavePath(writable).value;
      InstancesUuid(s.(files := s.files[p := FileEntry("", now)]), h);
    }
  }

  /** Reloading keeps the store valid and the system UUID as it was. */
  lemma ReloadedValid(s: Store, h: Host)
    requires Valid(s)
    ensures Valid(Reloaded(s, h)) && Reloaded(s, h).loaded
    ensures s.loaded ==> Reloaded(s, h).info.systemUuid == s.info.systemUuid
  {
    LoadedValid(s.(loaded := false, instances := [], lastMtime := 0), h);
  }

  /** Reading the instances keeps the store valid, and the answer is never
      empty and is what is cached. */
  lemma InstancesReadValid(s: Store, h: Host)
    requires Valid(s)
    ensures Valid(InstancesRead(s, h).0)
    ensures InstancesRead(s, h).1 != []
    ensures InstancesRead(s, h).0.instances == InstancesRead(s, h).1
    ensures InstancesRead(s, h).0.files == s.files
  {
    var s1 := Refreshed(s);
    assert Valid(s1) && s1.files == s.files;
    if s1.instances == [] {
      UncachedValid(s1, h);
    }
  }

  lemma UncachedValid(s: Store, h: Host)
    requires Valid(s)
    ensures Valid(Uncached(s, h).0)
    ensures Uncached(s, h).1 != []
    ensures Uncached(s, h).0.instances == Uncached(s, h).1
    ensures Uncached(s, h).0.files == s.files
  {
    var file := DeviceFile(s.files);
    var s2 := if file.Some? then s.(lastMtime := file.value.mtime) else s;
    LoadedValid(s2, h);
  }

  /** A non-empty cache is the answer while the file's modification time
      is the one last seen: nothing is read and nothing changes. */
  lemma InstancesCached(s: Store, h: Host)
    requires s.instances != []
    requires DeviceFile(s.files).None? || DeviceFile(s.files).value.mtime == s.lastMtime
    ensures InstancesRead(s, h) == (s, s.instances)
  {
  }

  /** A file whose modification time differs from the one last seen
      discards the cache, and its time becomes the one last seen. */
  lemma InstancesInvalidated(s: Store, h: Host)
    requires DeviceFile(s.files).Some? && DeviceFile(s.files).value.mtime != s.lastMtime
    ensures InstancesRead(s, h) == InstancesRead(s.(instances := []), h)
    ensures InstancesRead(s, h).0.lastMtime == DeviceFile(s.files).value.mtime
  {
  }

  /** Without a usable cache the instances come from the file if it lists
      any, else from DEVICE_INSTANCES if it yields any, else they are the
      system UUID alone. */
  lemma InstancesFallback(s: Store, h: Host)
    requires Valid(s)
    requires s.instances == [] || (DeviceFile(s.files).Some? && DeviceFile(s.files).value.mtime != s.lastMtime)
    ensures InstancesRead(s, h).1 ==
              if FileInstances(DeviceFile(s.files)) != [] then FileInstances(DeviceFile(s.files))
              else if EnvInstances(h.env) != [] then EnvInstances(h.env)
              else [ReadUuid(s.cachedUuid, h.uuid)]
  {
  }

  /** Reading the instances twice gives the same answer and changes
      nothing the second time. */
  lemma InstancesIdempotent(s: Store, h: Host)
    requires Valid(s)
    ensures var (t, xs) := InstancesRead(s, h); InstancesRead(t, h) == (t, xs)
  {
    InstancesReadValid(s, h);
    var (t, xs) := InstancesRead(s, h);
    var file := DeviceFile(s.files);
    assert file.Some? ==> t.lastMtime == file.value.mtime;
    InstancesCached(t, h);
  }

  /** An update answers true exactly when the request has a "device"
      object; either way the store ends up loaded and valid, and a false
      answer changes nothing beyond the load. */
  lemma UpdatedValid(s: Store, h: Host, json: string)
    requires Valid(s)
    ensures Updated(s, h, json).1 <==> DeviceObject(json).Some?
    ensures !Updated(s, h, json).1 ==> Updated(s, h, json).0 == Loaded(s, h)
    ensures Valid(Updated(s, h, json).0) && Updated(s, h, json).0.loaded
    ensures Updated(s, h, json).0.files == s.files
  {
    LoadedValid(s, h);
  }

  /** A successful update sets each of the nine registered fields that the
      "device" object gives a non-empty value, the port that the whole
      request gives a non-empty value, and nothing else. */
  lemma UpdatedRecord(s: Store, h: Host, json: string, f: Field)
    requires DeviceObject(json).Some?
    ensures var obj := DeviceObject(json).value;
            Get(Updated(s, h, json).0.info, f) ==
              if RegisteredKey(f).Some? && JsonString(obj, RegisteredKey(f).value) != "" then JsonString(obj, RegisteredKey(f).value)
              else if f == EndpointPort && JsonString(json, "endpoint_port") != "" then JsonString(json, "endpoint_port")
              else Get(Loaded(s, h).info, f)
    ensures JsonArray(json, "instances") != [] ==> Updated(s, h, json).0.instances == JsonArray(json, "instances")
    ensures JsonArray(json, "instances") == [] ==> Updated(s, h, json).0.instances == Loaded(s, h).instances
  {
    var obj := DeviceObject(json).value;
    var i := Loaded(s, h).info;
    assert Updated(s, h, json).0.info == PortOverlay(RegisteredOverlay(i, obj), json);
    RequestOverlayField(i, obj, json, f);
  }

  lemma RequestOverlayField(i: DeviceInfo, obj: string, json: string, f: Field)
    ensures Get(PortOverlay(RegisteredOverlay(i, obj), json), f) ==
              if RegisteredKey(f).Some? && JsonString(obj, RegisteredKey(f).value) != "" then JsonString(obj, RegisteredKey(f).value)
              else if f == EndpointPort && JsonString(json, "endpoint_port") != "" then JsonString(json, "endpoint_port")
              else Get(i, f)
  {
    RegisteredOverlayField(i, obj, f);
    if f != EndpointPort {
      assert Get(PortOverlay(RegisteredOverlay(i, obj), json), f) == Get(RegisteredOverlay(i, obj), f);
    }
  }

  /** Without a writable path nothing happens and the answer is false. */
  lemma SaveNoPath(s: Store, h: Host, writable: set<string>, now: int, good: bool)
    requires LocalPath !in writable && SystemPath !in writable
    ensures Saved(s, h, writable, now, good) == (s, false)
  {
  }

  /** With a cache, saving writes the record and the cached instances to
      the first writable path, marks the time of the write, and changes
      nothing else; after a stream that went bad the file holds the empty
      stand-in for the part of the text that was flushed. */
  lemma SaveCached(s: Store, h: Host, writable: set<string>, now: int, good: bool)
    requires SavePath(writable).Some? && s.instances != []
    ensures var p := SavePath(writable).value;
            Saved(s, h, writable, now, good) ==
              if good then (s.(files := s.files[p := FileEntry(SaveText(s.info, s.instances), now)], lastMtime := now), true)
              else (s.(files := s.files[p := FileEntry("", now)]), false)
  {
    var p := SavePath(writable).value;
    assert s.files[p := FileEntry("", now)][p := FileEntry(SaveText(s.info, s.instances), now)]
        == s.files[p := FileEntry(SaveText(s.info, s.instances), now)];
  }

  /** Saving keeps the store valid and the record unchanged. */
  lemma SavedValid(s: Store, h: Host, writable: set<string>, now: int, good: bool)
    requires Valid(s)
    ensures Valid(Saved(s, h, writable, now, good).0)
  {
    if SavePath(writable).Some? && s.instances == [] {
      var p := SavePath(writable).value;
      InstancesReadValid(s.(files := s.files[p := FileEntry("", now)]), h);
    }
  }

  /** Opening the file for writing truncates it before the instances are
      read: with an empty cache, a writable working-directory file and no
      DEVICE_INSTANCES, the saved list is the system UUID alone, whatever
      instances the file held before. */
  lemma SaveDropsFileInstances(s: Store, h: Host, writable: set<string>, now: int)
    requires Valid(s)
    requires s.instances == [] && LocalPath in writable && InstancesVar !in h.env
    ensures Saved(s, h, writable, now, true).0.files[LocalPath] == FileEntry(SaveText(s.info, [ReadUuid(s.cachedUuid, h.uuid)]), now)
  {
    var s1 := s.(files := s.files[LocalPath := FileEntry("", now)]);
    assert DeviceFile(s1.files) == Some(FileEntry("", now));
    ArrayMissing("", "instances");
    InstancesFallback(s1, h);
  }

  /** The values save_device_config and the extractors agree on. */
  predicate Saveable(s: Store) {
    && (forall j :: 0 <= j < |Fields(s.info)| ==> SaveableValue(Fields(s.info)[j].1))
    && (forall j :: 0 <= j < |s.instances| ==> SaveableInstance(s.instances[j]))
  }

  /** Saving to the working directory and reloading restores the cached
      instances and every non-empty saved field that no environment
      variable overrides. */
  lemma SaveThenReload(s: Store, h: Host, writable: set<string>, now: int, f: Field)
    requires LocalPath in writable && s.instances != [] && Saveable(s)
    requires FileKey(f).Some? && Get(s.info, f) != ""
    requires EnvVar(f).None? || EnvVar(f).value !in h.env
    ensures var u := Reloaded(Saved(s, h, writable, now, true).0, h);
            && u.instances == s.instances
            && Get(u.info, f) == Get(s.info, f)
            && u.lastMtime == now
  {
    var text := SaveText(s.info, s.instances);
    SaveCached(s, h, writable, now, true);
    var t := Saved(s, h, writable, now, true).0;
    assert DeviceFile(t.files) == Some(FileEntry(text, now));
    SavedFieldReads(s.info, s.instances, f);
    ReloadReads(t, h, f, text, now, s.instances, Get(s.info, f));
  }

  /** The saved text gives back the field and the instances. */
  lemma SavedFieldReads(info: DeviceInfo, xs: seq<string>, f: Field)
    requires forall j :: 0 <= j < |Fields(info)| ==> SaveableValue(Fields(info)[j].1)
    requires forall j :: 0 <= j < |xs| ==> SaveableInstance(xs[j])
    requires FileKey(f).Some?
    ensures JsonString(SaveText(info, xs), FileKey(f).value) == Get(info, f)
    ensures JsonArray(SaveText(info, xs), "instances") == xs
  {
    SaveRoundTrip(info, xs);
    FieldOfKey(SaveText(info, xs), info, f);
  }

  /** Reloading a file whose text gives a non-empty field value and a
      non-empty instance list takes both, and the file's time. */
  lemma ReloadReads(t: Store, h: Host, f: Field, text: string, now: int, xs: seq<string>, v: string)
    requires DeviceFile(t.files) == Some(FileEntry(text, now))
    requires FileKey(f).Some? && JsonString(text, FileKey(f).value) == v && v != ""
    requires JsonArray(text, "instances") == xs && xs != []
    requires EnvVar(f).None? || EnvVar(f).value !in h.env
    ensures Reloaded(t, h).instances == xs
    ensures Get(Reloaded(t, h).info, f) == v
    ensures Reloaded(t, h).lastMtime == now
  {
    ReloadedFile(t, h, FileEntry(text, now));
    UuidNotInFile();
    ReloadedInfo(t, h, f);
    assert Content(DeviceFile(t.files)) == Some(text);
    PrecedenceFile(f, text, h.env, v);
  }

  lemma UuidNotInFile()
    ensures FileKey(SystemUuid).None?
  {
  }

  lemma ReloadedFile(t: Store, h: Host, e: FileEntry)
    requires DeviceFile(t.files) == Some(e) && JsonArray(e.content, "instances") != []
    ensures Reloaded(t, h).instances == JsonArray(e.content, "instances")
    ensures Reloaded(t, h).lastMtime == e.mtime
  {
  }

  /** A non-empty file value wins when no variable overrides it. */
  lemma PrecedenceFile(f: Field, text: string, env: map<string, string>, v: string)
    requires EnvVar(f).None? || EnvVar(f).value !in env
    requires FileKey(f).Some? && JsonString(text, FileKey(f).value) == v && v != ""
    ensures Precedence(f, Some(text), env) == v
  {
  }

  /** After a reload each field but the UUID follows the precedence of
      the environment, the file and the defaults. */
  lemma ReloadedInfo(t: Store, h: Host, f: Field)
    requires f != SystemUuid
    ensures Get(Reloaded(t, h).info, f) == Precedence(f, Content(DeviceFile(t.files)), h.env)
  {
    var t0 := t.(loaded := false, instances := [], lastMtime := 0);
    LoadedRecord(t0, h, f);
    assert Reloaded(t, h).info == Loaded(t0, h).info;
  }

  /** The port is never empty; in a valid store it is the record's own. */
  lemma PortReadValid(s: Store, h: Host)
    requires Valid(s)
    ensures PortRead(s, h).1 == Loaded(s, h).info.endpointPort != ""
    ensures Valid(PortRead(s, h).0)
  {
    LoadedValid(s, h);
  }

  /** The store at program start is valid. */
  lemma InitialValid(files: Files)
    ensures Valid(Initial(files)) && !Initial(files).loaded
  {
  }
}
