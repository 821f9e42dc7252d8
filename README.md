# metrics_monitor_system: the device registration core in Dafny

This project models the device registration core of metrics_monitor_system, a small C++ HTTP service. A client registers a device with `POST /v1/core/system/info`. The service checks Basic credentials and reads the device fields from the JSON body. It saves them to `device_registered.json` and serves them back on later requests. The model covers:

- **The ad-hoc JSON extractors** (`text.dfy`, `json_extract.dfy`):
  - `extract_json_string`: both copies are the same text, so it is modelled once;
  - `extract_json_array`;
  - the brace matcher shared by `update_device_config_from_json` and `extract_json_object`.

  Each scanning loop is a method. It is proved against a function that states its result as a slice of the input or as "not found".
- **The JSON string escaper** (`json_escape.dfy`): `escape_json`. It is proved against the string escapes of section 7 of RFC 8259, with an unescaper and a round trip.
- **The application configuration loader** (`app_config.dfy`):
  - `std::stoi` with the `int` range;
  - `extract_json_int` and `extract_json_object`;
  - the defaults and `load_config`, with its three paths tried in order.
- **The device configuration store** (`device_info.dfy`, `system_uuid.dfy`, `instance_list.dfy`, `device_save.dfy`, `device_store.dfy`). The five file-scope statics of `src/device_config.cpp` are the fields of the class `DeviceConfig.DeviceStore`. So are the registration files it reads and writes.
  - Each operation is a method with `modifies this`: load, reload, get_device_info, get_device_instances, set_device_instances, update, save, get_endpoint_port and read_system_uuid.
  - Each method's `ensures` ties its new state to a function on an immutable `Store` snapshot. The properties are proved as lemmas about those functions.
- **The Basic authentication check** (`basic_auth.dfy`):
  - the "Basic " scheme;
  - the in-place `std::remove`/`erase` of blanks, on an `array<char>`;
  - the lenient base64 loop over the alphabet of section 4 of RFC 4648;
  - the split of `user-id:password` at the first colon, as in section 2 of RFC 7617.
- **The outcome sequence of `handle_post_system_info`** (`post_handler.dfy`): 401, 400, 400, 500, or reload and then 200.

Three things differ from what the comments in the source say. The model follows the code:

- **Environment beats file.** The comments call the registration file the first and strongest layer. In the code, the environment variables are applied after the file, so they win. A variable that is set but empty still overwrites, because the test is only whether it is set.
- **`DEVICE_ENDPOINT_PORT` never applies.** It applies only when the port is empty, and the port is never empty at that point (`DeviceRecord.MergedPortNonEmpty`).
- **Saving can lose instances.** `save_device_config` opens, and so truncates, the registration file before it may call `get_device_instances`. With an empty cache, that call reads the truncated file and falls back to the environment or to the system UUID (`DeviceConfig.SaveDropsFileInstances`). The model does not claim that save keeps the instances that were saved before.

**Outside inputs.** The outside world enters as explicit inputs:

- the registration files, as a map from path to content and modification time;
- the environment, as a map;
- the three UUID sources, as optional raw outputs;
- for `load_config`, the configuration files as a map;
- for a save: the set of paths that open for writing, the time of the write, and whether the stream stayed good.

Characters are Dafny `char`s. Decoded base64 bytes are characters below 256.

## Model

| member | source | states |
|---|---|---|
| Text.Find | src/device_config.cpp:117-121 | `std::string::find`: the first occurrence at or after the start, and None exactly when there is none at or after it |
| Text.TrimIsSlice | src/device_config.cpp:133-136 | the two `erase` calls leave the slice between the leading and trailing spaces/tabs, with no blank at either end |
| Text.TrimAllBlank | src/device_config.cpp:133-136 | an all-blank value trims to "" |
| Text.NonEmptyOr | src/device_config.cpp:249-250 | the `if (!v.empty()) field = v;` rule: the value when non-empty, else the old field |
| JsonExtract.SkipValueSeps | src/device_config.cpp:124 | the skip loop after the colon stops at the first character that is not a space, colon or tab |
| JsonExtract.RawEnd | src/device_config.cpp:131-132 | an unquoted value ends at the first `,`, `}` or newline, or at the end |
| JsonExtract.ScanIsBody | src/device_config.cpp:141-148 | when the quoted scan stops at a quote, the text it passed is a string body in which backslash pairs are skipped |
| JsonExtract.BodyThenQuote | src/device_config.cpp:141-148 | conversely, a string body followed by a quote is exactly where the scan stops |
| JsonExtract.ValueStart | src/device_config.cpp:116-126 | the start of the value found after the first `"key"` and the next colon is inside the text and is not a separator |
| JsonExtract.FindValueStart | src/device_config.cpp:116-126 | the key search, colon search and skip loop compute that value start |
| JsonExtract.FindRawEnd | src/device_config.cpp:131-132 | the loop computes the end of an unquoted value |
| JsonExtract.FindClosingQuote | src/device_config.cpp:141-148 | the escape-skipping loop computes the end of a quoted value |
| JsonExtract.ExtractJsonString | src/device_config.cpp:115-153 | `extract_json_string` returns the modelled value |
| JsonExtract.QuotedValue | src/device_config.cpp:140-152 | a quoted value is exactly the text between its opening quote and the first unescaped closing quote, not unescaped |
| JsonExtract.QuotedResult | src/device_config.cpp:140-152 | a non-empty quoted result is a slice of the input that starts after the opening quote and is followed by a quote |
| JsonExtract.QuotedUnterminated | src/device_config.cpp:150 | with no unescaped closing quote, or with a newline first, the result is "" |
| JsonExtract.RawValue | src/device_config.cpp:129-137 | an unquoted value is the trimmed text up to `,`, `}` or newline; an all-blank one is "" |
| JsonExtract.MissingKey | src/device_config.cpp:117-118 | without the quoted key the result is "" |
| JsonExtract.ArraySpan | src/device_config.cpp:158-180 | the brackets found are the first `[` after the key and the next `]` after it |
| JsonExtract.SpanOf | src/device_config.cpp:159-178 | the three searches, in order, give the bracket span |
| JsonExtract.ExtractJsonArray | src/device_config.cpp:156-222 | `extract_json_array` returns the modelled elements |
| JsonExtract.SkipSeparators | src/device_config.cpp:187-193 | the inner loop skips spaces, commas, tabs and newlines |
| JsonExtract.ReadElements | src/device_config.cpp:184-218 | the element loop over the bracketed text returns the modelled elements |
| JsonExtract.ElementsAreBodies | src/device_config.cpp:197-211 | every element is a string body (escape pairs skipped, no unescaped quote) |
| JsonExtract.ElementsCons | src/device_config.cpp:197-211 | separators, then a quoted element, give that element followed by the rest |
| JsonExtract.ElementsNext | src/device_config.cpp:207-211 | a terminated element is pushed and reading goes on after its closing quote |
| JsonExtract.ElementsStop | src/device_config.cpp:195-217 | reading stops with nothing more at the end or at a non-quoted element |
| JsonExtract.ElementsUnterminated | src/device_config.cpp:199-214 | an element with no closing quote ends the list |
| JsonExtract.ElementsUnclosed | src/device_config.cpp:212-214 | an element whose scan runs to the end is dropped and the loop breaks |
| JsonExtract.ElementsNone | src/device_config.cpp:195-217 | nothing but separators, or a non-quote, yields no element |
| JsonExtract.ElementsWithin | src/device_config.cpp:174-180 | an element never holds a `]`, since the content ends at the first one |
| JsonExtract.ArrayMissing | src/device_config.cpp:159-178 | a missing key, `[` or `]` gives the empty list |
| JsonExtract.ArrayContent | src/device_config.cpp:159-180 | with the key, the first `[` after it and the next `]`, the result is the elements of the text in between |
| JsonExtract.CloseFrom | src/device_config.cpp:502-513 | the matching brace ends the shortest prefix from the `{` with depth 0; every shorter prefix has depth above 0 |
| JsonExtract.MatchingBrace | src/device_config.cpp:502-513 | the counting loop computes the matching brace |
| JsonExtract.MatchBrace | src/config.cpp:69-82 | the matched text ends in `}` and is balanced, and every proper prefix has more `{` than `}`; without a match, every prefix does |
| JsonEscape.HexDigit | src/json_utils.cpp:18 | a lowercase hexadecimal digit |
| JsonEscape.Escape | src/json_utils.cpp:7-23 | the output is at least as long as the input |
| JsonEscape.EscapeJson | src/json_utils.cpp:5-25 | the loop's output is the concatenation of the per-character images |
| JsonEscape.EscapedImage | src/json_utils.cpp:8-22 | the switch: `\"`, `\\`, `\b`, `\f`, `\n`, `\r`, `\t`, `\u00xx` for other control characters, the character itself otherwise |
| JsonEscape.EscapeConcat | src/json_utils.cpp:7-23 | escape(a + b) == escape(a) + escape(b) |
| JsonEscape.EscapePrintable | src/json_utils.cpp:8-22 | no output character is below 0x20 |
| JsonEscape.UnescapeEscape | src/json_utils.cpp:5-25 | decoding the output as a string body of section 7 of RFC 8259 gives the input back |
| JsonEscape.UnescapeChar | src/json_utils.cpp:8-22 | each character's image decodes to that character, whatever follows |
| JsonEscape.HexDigitValue | src/json_utils.cpp:18 | the digit written decodes to its value |
| JsonEscape.EscapePlain | src/json_utils.cpp:19-21 | text with no quote, backslash or control character is written unchanged |
| AppConfigLoader.SkipCSpace | src/config.cpp:54 | `std::stoi` first skips C white space |
| AppConfigLoader.DigitEnd | src/config.cpp:54 | the decimal digits after the sign end at the first non-digit |
| AppConfigLoader.StoiLeading | src/config.cpp:53-57 | a sign, decimal digits and a non-digit tail parse to the signed leading value when it fits in an `int` |
| AppConfigLoader.StoiNoDigits | src/config.cpp:53-57 | with no digit after the blanks and sign, `stoi` throws and the default is used |
| AppConfigLoader.JsonInt | src/config.cpp:49-58 | `extract_json_int` is the default or the parsed value; an empty or unparsable value gives the default, out of `int` range included |
| AppConfigLoader.ExtractJsonObject | src/config.cpp:61-83 | the method computes the modelled object |
| AppConfigLoader.ObjectShape | src/config.cpp:61-83 | the result is "" exactly when the braces do not match; else it is the slice from the first `{` after the key, balanced, ending in `}`, with every proper prefix unbalanced towards `{` |
| AppConfigLoader.LoadServer | src/config.cpp:130-141 | the port is taken only when 0 < port < 65536, the host only when non-empty |
| AppConfigLoader.LoadAuth | src/config.cpp:144-155 | username and password are taken only when non-empty |
| AppConfigLoader.LoadPaths | src/config.cpp:158-169 | the two paths are taken only when non-empty |
| AppConfigLoader.LoadLogging | src/config.cpp:172-178 | the level is taken only when non-empty |
| AppConfigLoader.LoadConfig | src/config.cpp:106-181 | `load_config` returns the modelled configuration |
| AppConfigLoader.NoFileDefaults | src/config.cpp:106-122 | when no path opens the result is the default configuration (port 8080, level "info") |
| AppConfigLoader.OpenOrder | src/config.cpp:110-117 | the given path, then `./config.json`, then `/etc/metrics_monitor_system/config.json` |
| AppConfigLoader.PortInRange | src/config.cpp:132-137 | the server port is 8080 or lies strictly between 0 and 65536 |
| AppConfigLoader.PortFromFile | src/config.cpp:132-137 | a parsed in-range port is taken; an out-of-range one leaves 8080 |
| AppConfigLoader.StringSettings | src/config.cpp:85-177 | each string setting is the section's non-empty value, else its default ("0.0.0.0", "cvedix", "cvedix", the two registration paths, "info"); host and level are never empty |
| AppConfigLoader.NoSectionsDefaults | src/config.cpp:129-180 | a file with none of the four sections gives the defaults |
| DeviceRecord.RegisteredOverlayField | src/device_config.cpp:520-545 | the update touches the nine registered fields and no other, each only with a non-empty value |
| DeviceRecord.FileOverlayField | src/device_config.cpp:249-277 | the file touches the ten file fields and no other, each only with a non-empty value |
| DeviceRecord.EnvOverlayField | src/device_config.cpp:287-329 | a set variable overwrites its field even when empty; DEVICE_ENDPOINT_PORT fills only an empty port |
| DeviceRecord.MergePrecedence | src/device_config.cpp:229-329 | every field but the UUID is the environment's value if set, else the file's non-empty value, else the default |
| DeviceRecord.MergedPortNonEmpty | src/device_config.cpp:326-329 | the merged port is never empty and DEVICE_ENDPOINT_PORT never changes it |
| UuidSource.FirstLine | src/device_config.cpp:55 | `std::getline` yields the prefix up to the first newline |
| UuidSource.Fgets | src/device_config.cpp:88-89 | `fgets` into a 128-byte buffer yields a prefix of at most 127 characters with a newline at most at its end |
| UuidSource.SourceUuid | src/device_config.cpp:51-107 | the sources never yield an empty UUID |
| UuidSource.ReadUuid | src/device_config.cpp:45-108 | `read_system_uuid` never returns "" |
| UuidSource.CachedReadsNoSource | src/device_config.cpp:47-49 | with a cached value, the result is the cache, whatever the sources hold |
| UuidSource.MachineIdBranch | src/device_config.cpp:52-70 | a machine-id line of 32 or more characters becomes the 36-character grouped form; a shorter one is returned verbatim |
| UuidSource.CanonicalShape | src/device_config.cpp:59-64 | the grouped form is 36 long, has hyphens at 8, 13, 18 and 23, and its digits are the first 32 characters |
| UuidSource.CanonicalIsUuid | src/device_config.cpp:59-64 | from 32 hexadecimal digits it is the textual UUID of section 3 of RFC 4122 |
| UuidSource.CanonicalOfDigits | src/device_config.cpp:59-64 | grouping the digits of a textual UUID gives it back |
| UuidSource.OtherBranchesReject | src/device_config.cpp:73-107 | after the machine-id no all-zero UUID is returned; the DMI line is taken when non-empty and non-zero; with no usable source the fallback constant is returned; "Not Specified" can come only from DMI |
| UuidSource.DmidecodeLine | src/device_config.cpp:86-99 | a dmidecode UUID is a prefix of the output without newline or NUL, at most 127 long, and neither "Not Specified" nor all zeros |
| UuidSource.CString | src/device_config.cpp:90 | the string built from the buffer is the prefix before the first NUL |
| UuidSource.UpTo | src/device_config.cpp:55 | the longest prefix without the given character |
| InstanceList.SplitInstances | src/device_config.cpp:461-473 | the getline loop keeps the trimmed, non-empty comma-separated pieces in order |
| InstanceList.Split | src/device_config.cpp:463-465 | the pieces and the rest hold no comma |
| InstanceList.JoinPieces | src/device_config.cpp:463-465 | joining the pieces with commas gives the string back |
| InstanceList.PiecesJoin | src/device_config.cpp:463-465 | comma-free pieces joined with commas split back into themselves |
| InstanceList.EntriesShape | src/device_config.cpp:465-471 | every entry is non-empty, comma-free and trimmed |
| InstanceList.JoinRoundTrip | src/device_config.cpp:461-473 | instances listed with commas in DEVICE_INSTANCES come back as exactly those instances |
| DeviceSave.PlainEscape | src/device_config.cpp:583-592 | a value with nothing to escape is written as is |
| DeviceSave.FieldLookup | src/device_config.cpp:583-592 | in the written field lines each key finds its own value, when no earlier line has that key or a value equal to it |
| DeviceSave.ValueNamesKey | src/device_config.cpp:116-126 | a value equal to the name of a later key `k` hides it: extracting `k` gives the next line's value |
| DeviceSave.VersionHidesMode | src/device_config.cpp:583-591 | a record whose version is `mode` saves a file from which `mode` reads back as the serial number |
| DeviceSave.KeyNameValueMisread | src/device_config.cpp:583-591 | one such record, whose saved mode `M` reads back as `S` |
| DeviceSave.LineLookup | src/device_config.cpp:583-592 | a written line whose key occurs nowhere before it reads back its value |
| DeviceSave.InstanceContent | src/device_config.cpp:608-614 | the text between the brackets reads back as the instances, for values with nothing to escape and no `]` |
| DeviceSave.ItemsElements | src/device_config.cpp:609-613 | the instance lines from any position read back as the remaining instances |
| DeviceSave.ArrayAt | src/device_config.cpp:608-614 | the key, the `[` and the `]` of the written array are where the extractor finds them |
| DeviceSave.SaveRoundTrip | src/device_config.cpp:567-639 | for values with nothing to escape and no key name, re-extracting each key from the written text gives the saved value, and the array gives the instances |
| DeviceSave.InstancesRoundTrip | src/device_config.cpp:594-616 | when no field value needs escaping or is a key name, and no instance needs escaping or holds `]`, the written array reads back as the instances |
| DeviceSave.SavedFieldsReload | src/device_config.cpp:249-277 | under the same conditions on values and instances, loading the written text sets each non-empty saved file field and keeps the rest |
| DeviceSave.FieldOfKey | src/device_config.cpp:249-277 | a field read by key is the record's field |
| DeviceSave.FieldsShape | src/device_config.cpp:583-592 | ten distinct keys in a fixed order, none of them "instances" |
| DeviceConfig.DeviceFile | src/device_config.cpp:235-241 | the working-directory file, else the one under /etc |
| DeviceConfig.DeviceObject | src/device_config.cpp:495-517 | the object found is `{`...`}` and balanced |
| DeviceConfig.FindDeviceObject | src/device_config.cpp:495-517 | the searches and the brace loop compute the device object, or fail |
| DeviceConfig.KeepNonEmpty | src/device_config.cpp:249-250 | the non-empty value replaces the field |
| DeviceConfig.EnvValue | src/device_config.cpp:287-288 | a set variable replaces the field |
| DeviceConfig.ReadRegisteredFields | src/device_config.cpp:520-545 | the nine field updates of a registration |
| DeviceConfig.ReadPort | src/device_config.cpp:548-549 | the port update from the whole request |
| DeviceConfig.ApplyEnvironment | src/device_config.cpp:287-329 | the fourteen environment overrides |
| DeviceConfig.WriteField | src/device_config.cpp:583 | one field line, value escaped |
| DeviceConfig.WriteFields | src/device_config.cpp:583-592 | the ten field lines in order |
| DeviceConfig.WriteItems | src/device_config.cpp:609-613 | the instance lines, a comma after all but the last |
| DeviceConfig.TenLines | src/device_config.cpp:583-592 | the ten lines are the lines of the ten fields in order |
| DeviceConfig.DeviceStore.constructor | src/device_config.cpp:17-21 | the statics at start-up: empty record, not loaded, no instances, no cached UUID, marker 0 |
| DeviceConfig.ReadDmidecode | src/device_config.cpp:86-99 | the dmidecode step computes the modelled dmidecode UUID |
| DeviceConfig.DeviceStore.ReadSystemUuid | src/device_config.cpp:45-108 | the result comes from the cache or the sources and becomes the cache; nothing else changes |
| DeviceConfig.DeviceStore.SetDeviceInstances | src/device_config.cpp:485-487 | the instances are replaced and nothing else changes |
| DeviceConfig.DeviceStore.Load | src/device_config.cpp:224-335 | the store becomes the loaded snapshot: defaults, file fields, environment, UUID, the file's instances if any |
| DeviceConfig.DeviceStore.Reload | src/device_config.cpp:337-369 | flag, cache and marker are cleared, the store is loaded, and the file's instances and time are taken |
| DeviceConfig.DeviceStore.GetDeviceInfo | src/device_config.cpp:371-376 | loads if needed and returns the record |
| DeviceConfig.DeviceStore.GetDeviceInstances | src/device_config.cpp:405-483 | the mtime check, then the cache, the file, DEVICE_INSTANCES or the UUID |
| DeviceConfig.DeviceStore.ReadUncached | src/device_config.cpp:431-482 | the lookup when the cache is empty |
| DeviceConfig.DeviceStore.Update | src/device_config.cpp:489-565 | loads if needed; no device object: false and nothing else; else the fields, port and instances, and true |
| DeviceConfig.DeviceStore.Save | src/device_config.cpp:567-639 | the file is truncated at open, the text written, the marker set and true; false when no path opens or the stream is bad |
| DeviceConfig.DeviceStore.GetEndpointPort | src/device_config.cpp:641-647 | loads if needed and returns the port, "3546" when empty |
| DeviceConfig.InitialValid | src/device_config.cpp:17-21 | the start-up store is valid and not loaded |
| DeviceConfig.LoadedValid | src/device_config.cpp:224-335 | loading leaves the store loaded and valid, loading again changes nothing, the files are untouched |
| DeviceConfig.LoadedRecord | src/device_config.cpp:229-334 | a first load sets every field by precedence and the UUID by `read_system_uuid` |
| DeviceConfig.UuidStable | src/device_config.cpp:337-343 | once cached, no operation changes the UUID; reload does not clear the cache |
| DeviceConfig.ReloadedValid | src/device_config.cpp:337-369 | reloading leaves the store loaded and valid, with the same UUID |
| DeviceConfig.ReloadedInfo | src/device_config.cpp:337-343 | after a reload each field but the UUID follows the precedence |
| DeviceConfig.InstancesReadValid | src/device_config.cpp:405-483 | the result is never empty and becomes the cache |
| DeviceConfig.UncachedValid | src/device_config.cpp:431-482 | the uncached lookup's result is never empty and becomes the cache |
| DeviceConfig.InstancesCached | src/device_config.cpp:426-429 | a non-empty cache with an unchanged file is returned without reading anything |
| DeviceConfig.InstancesInvalidated | src/device_config.cpp:416-424 | a changed modification time discards the cache and becomes the marker |
| DeviceConfig.InstancesFallback | src/device_config.cpp:431-482 | without a cache: the file's instances, else DEVICE_INSTANCES, else the system UUID alone |
| DeviceConfig.InstancesIdempotent | src/device_config.cpp:405-483 | asking again gives the same instances and state |
| DeviceConfig.UpdatedValid | src/device_config.cpp:489-565 | true exactly with a device object; false leaves the loaded store; the store stays valid and loaded |
| DeviceConfig.UpdatedRecord | src/device_config.cpp:520-562 | the nine fields from the object when non-empty, the port from the whole request, instances replaced only by a non-empty list |
| DeviceConfig.SaveNoPath | src/device_config.cpp:570-580 | no path opens: nothing happens and false |
| DeviceConfig.SaveCached | src/device_config.cpp:567-639 | with a cache: the record and cache are written to the first writable path and the marker takes the write time; a bad stream answers false and leaves the file as truncated, the stand-in for whatever part of the text reached it |
| DeviceConfig.SavedValid | src/device_config.cpp:567-639 | saving keeps the store valid |
| DeviceConfig.SaveDropsFileInstances | src/device_config.cpp:571-607 | with an empty cache the truncated file is re-read, so the saved list is the system UUID alone |
| DeviceConfig.SaveThenReload | src/main.cpp:168-176 | when no field value needs escaping or is a key name and no instance needs escaping or holds `]`, saving and reloading restores the cached instances and each non-empty saved field that no variable overrides |
| DeviceConfig.SavedFieldReads | src/device_config.cpp:583-614 | under the same conditions, the written text yields each file field and the instances back |
| DeviceConfig.ReloadReads | src/device_config.cpp:337-369 | a reload takes the file's non-empty field and instances and its time |
| DeviceConfig.PortReadValid | src/device_config.cpp:641-647 | the port returned is never empty and is the record's own |
| BasicAuth.Erase | src/main.cpp:102-104 | `remove`/`erase` in place: the kept prefix is the old characters without `c`, in order |
| BasicAuth.WithoutCounts | src/main.cpp:102-104 | every `c` is removed and every other character kept as often as it occurred |
| BasicAuth.StrippedBlankFree | src/main.cpp:102-104 | the stripped payload has no space, newline or carriage return; a payload without them is unchanged |
| BasicAuth.Alphabet | src/main.cpp:109 | 64 characters |
| BasicAuth.AlphabetText | src/main.cpp:109 | the alphabet string of section 4 of RFC 4648 |
| BasicAuth.AlphabetIndex | src/main.cpp:115-116 | `chars.find` gives each character's position, and the position's character is it |
| BasicAuth.Accepted | src/main.cpp:112-116 | characters outside the alphabet are skipped and each accepted one is a sextet |
| BasicAuth.Bytes | src/main.cpp:117-121 | one byte per 8 accumulated bits |
| BasicAuth.DecodeBase64 | src/main.cpp:108-123 | the loop's output is the bytes of the bits of the sextets before the first `=` |
| BasicAuth.PadFound | src/main.cpp:114 | the first `=` ends the payload |
| BasicAuth.DecodedLength | src/main.cpp:117-121 | the output length is floor(6k/8) for k accepted characters |
| BasicAuth.DecodeEncode | src/main.cpp:108-123 | decoding the standard encoding of a byte string gives it back |
| BasicAuth.Payload | src/main.cpp:99-123 | the payload after "Basic " is stripped and then decoded |
| BasicAuth.CheckBasicAuth | src/main.cpp:87-135 | the check returns the modelled verdict |
| BasicAuth.RefusedWithoutScheme | src/main.cpp:88-96 | an empty header or one not starting with "Basic " is refused |
| BasicAuth.CredentialsIff | src/main.cpp:126-134 | accepted exactly when the user has no colon and the decoded text is user:password (the password may hold colons) |
| BasicAuth.AcceptsEncodedCredentials | src/main.cpp:87-135 | "Basic " and the standard base64 of user:password is accepted |
| BasicAuth.EncodeBlankFree | src/main.cpp:102-104 | a standard encoding is untouched by the blank removal |
| PostHandler.HandlePost | src/main.cpp:138-186 | the handler's steps give the modelled status and store |
| PostHandler.Outcomes | src/main.cpp:143-180 | the status is 200, 400, 401 or 500; 401 exactly on refused credentials; 400 exactly on an empty body or no device object; 500 exactly when no path opens or the stream goes bad; refused or empty requests change nothing |
| PostHandler.SavedResult | src/main.cpp:168-172 | a save succeeds exactly when a path opens and the stream stays good |
| PostHandler.HandledValid | src/main.cpp:138-186 | every request keeps the store valid; one past the body check leaves it loaded |
| PostHandler.PostThenGet | src/main.cpp:161-180 | when the updated record's values need no escaping and are not key names and its instances need no escaping and hold no `]`, after a 200 the store holds the posted instances and each non-empty saved field that no variable overrides |

## Left out

- File I/O, `stat`, `getenv`, `/etc/machine-id`, the DMI file and the `popen("dmidecode")` call are inputs: maps, a set of writable paths, a clock value and optional strings. Their failures beyond "does not open" and "the stream went bad" are not modelled, nor is a failing `stat` after a good write.
- DeviceConfig.Saved: a write whose stream went bad leaves, in the source, whatever part of the text was flushed before `good()` was tested. The model leaves the empty text of the truncation in its place, so `DeviceConfig.SaveCached` and `DeviceConfig.DeviceStore.Save` state that stand-in rather than the partial text.
- DeviceConfig.SaveCached: a bad stream is stated to leave the empty file, the stand-in described for `DeviceConfig.Saved`.
- DeviceConfig.DeviceStore.Save: the same stand-in for a bad stream.
- DeviceSave.SaveRoundTrip: requires that no field value equals one of the eleven key names. The key search takes the first quoted occurrence of a key anywhere in the text, so a value equal to a later key's name is found first and that key reads the next line's value (`DeviceSave.ValueNamesKey`, `DeviceSave.KeyNameValueMisread`). The round trip is not promised for such records.
- DeviceSave.InstancesRoundTrip: requires the same of the field values, since a value `instances` would hide the array.
- DeviceSave.SavedFieldsReload: requires the same, for the reason given for `DeviceSave.SaveRoundTrip`.
- DeviceConfig.SavedFieldReads: requires the same, for the reason given for `DeviceSave.SaveRoundTrip`.
- DeviceConfig.SaveThenReload: requires the same of the store's record, through `DeviceConfig.Saveable`.
- PostHandler.PostThenGet: requires the same of the updated record, through `DeviceConfig.Saveable`.
- A registration file's modification time is the time of the last write. The truncation at open and the final write happen at the same modelled instant.
- Concurrency. The HTTP handlers may touch the statics from several threads; the model has one sequential caller.
- `get_device_status`, `src/system_info.cpp` and `src/system_status.cpp`. These format hardware-library output and `/proc` reads, with floating point and wall-clock time.
- The `httplib` server, routing, CORS headers, the response bodies, the other handlers and `main()`'s argument handling.
- The `catch` of `handle_post_system_info`, which turns an exception into 500. No modelled step throws.
- Debug logging to standard output and standard error.
- The `BUILD_DATE` macro. It is a constant string in the model.
- C++ `int` width. `std::stoi`'s range check is modelled. The base64 accumulator `val` grows without masking in the source, which is signed overflow. The model keeps only its pending low bits, which decide every output byte.
- Characters are unbounded code points. The source's signed `char` is not modelled, so neither is the sign of bytes above 0x7f in `escape_json`'s range test. Such bytes are copied unchanged in both.
- Surrogate pairs in `\u` escapes are not decoded by the reference unescaper. The escaper never writes them.
