/** The UUID sources read_system_uuid consults (src/device_config.cpp),
    as their raw outputs: the content of /etc/machine-id, the content of
    /sys/class/dmi/id/product_uuid, and what `dmidecode -s system-uuid`
    prints (None: the file does not open or the command cannot start).
    The 8-4-4-4-12 form is the textual UUID representation of section 3
    of RFC 4122. */
module UuidSource {
  import opened Text

  datatype Sources = Sources(machineId: Option<string>, dmiUuid: Option<string>, dmidecode: Option<string>)

  const ZeroUuid: string := "00000000-0000-0000-0000-000000000000"
  const NotSpecified: string := "Not Specified"
  const FallbackUuid: string := "0fca8dd9-68be-26d9-3cf3-aa4625bac670"

  /** fgets into a 128-byte buffer reads at most 127 characters. */
  const FgetsLimit: nat := 127

  /** std::getline: the text before the first newline. */
  function FirstLine(s: string): (r: string)
    ensures |r| <= |s| && r == s[..|r|]
    ensures |r| == |s| || s[|r|] == '\n'
    ensures forall k :: 0 <= k < |r| ==> r[k] != '\n'
  {
    UpTo(s, '\n')
  }

  /** A std::string built from a character buffer: the text before the
      first NUL. */
  function CString(s: string): (r: string)
    ensures |r| <= |s| && r == s[..|r|]
    ensures |r| == |s| || s[|r|] == '\0'
    ensures forall k :: 0 <= k < |r| ==> r[k] != '\0'
  {
    UpTo(s, '\0')
  }

  /** The longest prefix of `s` without `c`. */
  function UpTo(s: string, c: char): (r: string)
    decreases |s|
    ensures |r| <= |s| && r == s[..|r|]
    ensures |r| == |s| || s[|r|] == c
    ensures forall k :: 0 <= k < |r| ==> r[k] != c
  {
    if s == [] || s[0] == c then [] else [s[0]] + UpTo(s[1..], c)
  }

  /** fgets: at most `n` characters, up to and including the first
      newline. */
  function Fgets(s: string, n: nat): (r: string)
    decreases n
    ensures |r| <= n && |r| <= |s| && r == s[..|r|]
    ensures forall k :: 0 <= k < |r| - 1 ==> r[k] != '\n'
  {
    if n == 0 || s == [] then []
    else if s[0] == '\n' then ['\n']
    else [s[0]] + Fgets(s[1..], n - 1)
  }

  /** One trailing newline removed, if there is one. */
  function DropNewline(s: string): string {
    if s != [] && s[|s| - 1] == '\n' then s[..|s| - 1] else s
  }

  /** The 8-4-4-4-12 grouping of the first 32 characters. */
  function Canonical(m: string): (u: string)
    requires |m| >= 32
  {
    m[0..8] + "-" + m[8..12] + "-" + m[12..16] + "-" + m[16..20] + "-" + m[20..32]
  }

  /** The machine-id branch: a line of 32 or more characters is grouped,
      a shorter one is taken verbatim.  The characters are not checked to
      be hexadecimal. */
  function MachineUuid(line: string): string
    requires line != ""
  {
    if |line| >= 32 then Canonical(line) else line
  }

  /** The dmidecode branch: None where the source falls through (no output,
      so fgets fails, or an empty, "Not Specified" or all-zero line). */
  function DmidecodeUuid(out: Option<string>): Option<string> {
    match out
    case None => None
    case Some(o) =>
      if o == [] then None
      else
        var u := DropNewline(CString(Fgets(o, FgetsLimit)));
        if u != "" && u != NotSpecified && u != ZeroUuid then Some(u) else None
  }

  /** What read_system_uuid derives from the sources, in their order. */
  function SourceUuid(src: Sources): (r: string)
    ensures r != ""
  {
    if src.machineId.Some? && FirstLine(src.machineId.value) != "" then
      MachineUuid(FirstLine(src.machineId.value))
    else if src.dmiUuid.Some? && FirstLine(src.dmiUuid.value) != "" && FirstLine(src.dmiUuid.value) != ZeroUuid then
      FirstLine(src.dmiUuid.value)
    else
      match DmidecodeUuid(src.dmidecode)
      case None => FallbackUuid
      case Some(u) => u
  }

  /** read_system_uuid with its cache: a cached value is returned as is. */
  function ReadUuid(cached: string, src: Sources): (r: string)
    ensures r != ""
  {
    if cached != "" then cached else SourceUuid(src)
  }

  // ---------------------------------------------------------------------
  // Properties

  /** A cached UUID is returned without consulting any source: the result
      is the same whatever the sources hold. */
  lemma CachedReadsNoSource(cached: string, a: Sources, b: Sources)
    requires cached != ""
    ensures ReadUuid(cached, a) == cached && ReadUuid(cached, b) == cached
  {
  }

  predicate IsHexDigit(c: char) {
    '0' <= c <= '9' || 'a' <= c <= 'f' || 'A' <= c <= 'F'
  }

  /** The hyphen positions of the RFC 4122 textual form. */
  predicate IsHyphenPosition(k: nat) {
    k == 8 || k == 13 || k == 18 || k == 23
  }

  /** The textual form of section 3 of RFC 4122: 36 characters, hyphens at
      8, 13, 18 and 23, hexadecimal digits everywhere else. */
  predicate IsUuidText(u: string) {
    && |u| == 36
    && (forall k :: 0 <= k < 36 && IsHyphenPosition(k) ==> u[k] == '-')
    && (forall k :: 0 <= k < 36 && !IsHyphenPosition(k) ==> IsHexDigit(u[k]))
  }

  /** The 32 digits of a textual UUID. */
  function Digits(u: string): string
    requires |u| == 36
  {
    u[0..8] + u[9..13] + u[14..18] + u[19..23] + u[24..36]
  }

  /** Grouping keeps the first 32 characters, in order, at the non-hyphen
      positions of a 36-character result with hyphens at 8, 13, 18, 23. */
  lemma CanonicalShape(m: string)
    requires |m| >= 32
    ensures |Canonical(m)| == 36
    ensures forall k :: 0 <= k < 36 && IsHyphenPosition(k) ==> Canonical(m)[k] == '-'
    ensures Digits(Canonical(m)) == m[..32]
  {
    var u := Canonical(m);
    assert u[0..8] == m[0..8];
    assert u[9..13] == m[8..12];
    assert u[14..18] == m[12..16];
    assert u[19..23] == m[16..20];
    assert u[24..36] == m[20..32];
    assert m[..32] == m[0..8] + m[8..12] + m[12..16] + m[16..20] + m[20..32];
  }

  /** A machine-id whose first 32 characters are hexadecimal becomes an
      RFC 4122 textual UUID, and grouping the digits of a textual UUID
      gives it back. */
  lemma CanonicalIsUuid(m: string)
    requires |m| >= 32
    requires forall k :: 0 <= k < 32 ==> IsHexDigit(m[k])
    ensures IsUuidText(Canonical(m))
  {
    CanonicalShape(m);
    var u := Canonical(m);
    forall k | 0 <= k < 36 && !IsHyphenPosition(k)
      ensures IsHexDigit(u[k])
    {
      var d := if k < 8 then k else if k < 13 then k - 1 else if k < 18 then k - 2 else if k < 23 then k - 3 else k - 4;
      assert u[k] == Digits(u)[d];
    }
  }

  lemma CanonicalOfDigits(u: string)
    requires IsUuidText(u)
    ensures Canonical(Digits(u)) == u
  {
    var m := Digits(u);
    assert m[0..8] == u[0..8];
    assert m[8..12] == u[9..13];
    assert m[12..16] == u[14..18];
    assert m[16..20] == u[19..23];
    assert m[20..32] == u[24..36];
    assert u == u[0..8] + [u[8]] + u[9..13] + [u[13]] + u[14..18] + [u[18]] + u[19..23] + [u[23]] + u[24..36];
  }

  /** The branches of the source order: a non-empty first line of the
      machine-id wins (grouped from 32 characters on, verbatim below); an
      all-zero DMI line and an empty, "Not Specified" or all-zero dmidecode
      line are passed over. */
  lemma MachineIdBranch(src: Sources)
    requires src.machineId.Some? && FirstLine(src.machineId.value) != ""
    ensures var line := FirstLine(src.machineId.value);
            && (|line| >= 32 ==> SourceUuid(src) == Canonical(line) && |SourceUuid(src)| == 36)
            && (|line| < 32 ==> SourceUuid(src) == line)
  {
    var line := FirstLine(src.machineId.value);
    if |line| >= 32 {
      CanonicalShape(line);
    }
  }

  lemma OtherBranchesReject(src: Sources)
    requires src.machineId.None? || FirstLine(src.machineId.value) == ""
    ensures SourceUuid(src) != ZeroUuid
    ensures SourceUuid(src) == NotSpecified ==> src.dmiUuid.Some? && FirstLine(src.dmiUuid.value) == NotSpecified
    ensures src.dmiUuid.Some? && FirstLine(src.dmiUuid.value) != "" && FirstLine(src.dmiUuid.value) != ZeroUuid ==>
              SourceUuid(src) == FirstLine(src.dmiUuid.value)
    ensures ((src.dmiUuid.None? || FirstLine(src.dmiUuid.value) == "" || FirstLine(src.dmiUuid.value) == ZeroUuid)
             && DmidecodeUuid(src.dmidecode).None?) ==> SourceUuid(src) == FallbackUuid
  {
  }

  /** The dmidecode line is the first line of the output, cut to 127
      characters. */
  lemma DmidecodeLine(o: string)
    requires o != [] && DmidecodeUuid(Some(o)).Some?
    ensures var u := DmidecodeUuid(Some(o)).value;
            && |u| <= FgetsLimit && u == o[..|u|]
            && (forall k :: 0 <= k < |u| ==> u[k] != '\n' && u[k] != '\0')
            && u != NotSpecified && u != ZeroUuid
  {
    var f := Fgets(o, FgetsLimit);
    var g := CString(f);
    var u := DropNewline(g);
    assert DmidecodeUuid(Some(o)) == Some(u);
    assert forall k :: 0 <= k < |g| - 1 ==> g[k] == f[k];
    DropNewlineLine(g);
    assert forall k :: 0 <= k < |u| ==> u[k] == g[k];
    assert o[..|f|][..|g|][..|u|] == o[..|u|];
  }

  /** Dropping the final newline of what fgets read leaves a prefix of it
      with no newline. */
  lemma DropNewlineLine(f: string)
    requires forall k :: 0 <= k < |f| - 1 ==> f[k] != '\n'
    ensures var u := DropNewline(f);
            && |u| <= |f| && u == f[..|u|]
            && forall k :: 0 <= k < |u| ==> u[k] != '\n'
  {
  }
}
