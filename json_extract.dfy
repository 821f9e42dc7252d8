/** The ad-hoc JSON field extractors of src/device_config.cpp and
    src/config.cpp.  None of them parses JSON: each locates the first
    occurrence of a quoted key, scans forward with an index and returns a
    slice of the input, or an empty default when the scan fails.  The two
    copies of extract_json_string are identical and are modelled once. */
module JsonExtract {
  import opened Text

  /** The key as the source searches for it: "\"" + key + "\"". */
  function SearchKey(key: string): string {
    ['"'] + key + ['"']
  }

  /** What the skip loop after the colon steps over (the colon included). */
  predicate IsValueSep(c: char) {
    c == ' ' || c == ':' || c == '\t'
  }

  /** What ends an unquoted value. */
  predicate IsRawStop(c: char) {
    c == ',' || c == '}' || c == '\n'
  }

  /** What the array loop steps over between elements. */
  predicate IsArraySep(c: char) {
    c == ' ' || c == ',' || c == '\t' || c == '\n'
  }

  function SkipValueSeps(s: string, i: nat): (j: nat)
    requires i <= |s|
    decreases |s| - i
    ensures i <= j <= |s| && (j == |s| || !IsValueSep(s[j]))
    ensures forall k :: i <= k < j ==> IsValueSep(s[k])
  {
    if i < |s| && IsValueSep(s[i]) then SkipValueSeps(s, i + 1) else i
  }

  function RawEnd(s: string, i: nat): (j: nat)
    requires i <= |s|
    decreases |s| - i
    ensures i <= j <= |s| && (j == |s| || IsRawStop(s[j]))
    ensures forall k :: i <= k < j ==> !IsRawStop(s[k])
  {
    if i < |s| && !IsRawStop(s[i]) then RawEnd(s, i + 1) else i
  }

  function SkipArraySeps(s: string, i: nat): (j: nat)
    requires i <= |s|
    decreases |s| - i
    ensures i <= j <= |s| && (j == |s| || !IsArraySep(s[j]))
  {
    if i < |s| && IsArraySep(s[i]) then SkipArraySeps(s, i + 1) else i
  }

  /** The scan for the closing quote: a backslash with a character after
      it is stepped over as a pair; the scan stops at a quote, at the end,
      and (for string values, `nl`) at a newline. */
  function ScanQuoted(s: string, i: nat, nl: bool): (j: nat)
    requires i <= |s|
    decreases |s| - i
    ensures i <= j <= |s|
    ensures j < |s| ==> s[j] == '"' || (nl && s[j] == '\n')
  {
    if i >= |s| || s[i] == '"' || (nl && s[i] == '\n') then i
    else if s[i] == '\\' && i + 1 < |s| then ScanQuoted(s, i + 2, nl)
    else ScanQuoted(s, i + 1, nl)
  }

  /** A well-formed string body as these scanners read it: ordinary
      characters other than a quote (and, with `nl`, a newline), and
      backslash pairs, which are kept as they are and not unescaped. */
  predicate Body(b: string, nl: bool)
    decreases |b|
  {
    if b == [] then true
    else if b[0] == '\\' then |b| >= 2 && Body(b[2..], nl)
    else b[0] != '"' && !(nl && b[0] == '\n') && Body(b[1..], nl)
  }

  /** A scan that stops on a quote has stepped over a well-formed body. */
  lemma {:induction false} ScanIsBody(s: string, i: nat, nl: bool)
    requires i <= |s|
    decreases |s| - i
    ensures ScanQuoted(s, i, nl) < |s| && s[ScanQuoted(s, i, nl)] == '"' ==>
              Body(s[i..ScanQuoted(s, i, nl)], nl)
  {
    var e := ScanQuoted(s, i, nl);
    if i >= |s| || s[i] == '"' || (nl && s[i] == '\n') {
      assert s[i..e] == [];
    } else if s[i] == '\\' && i + 1 < |s| {
      ScanIsBody(s, i + 2, nl);
      assert s[i..e][2..] == s[i + 2..e];
    } else {
      ScanIsBody(s, i + 1, nl);
      assert s[i..e][1..] == s[i + 1..e];
    }
  }

  /** Conversely, a well-formed body followed by a quote is exactly what
      the scan steps over: the first unescaped quote closes the value. */
  lemma {:induction false} BodyThenQuote(s: string, i: nat, b: string, nl: bool)
    requires Body(b, nl) && i + |b| < |s| && s[i..i + |b|] == b && s[i + |b|] == '"'
    decreases |b|
    ensures ScanQuoted(s, i, nl) == i + |b|
  {
    if b != [] {
      assert s[i] == b[0];
      if b[0] == '\\' {
        assert s[i + 2..i + |b|] == b[2..];
        BodyThenQuote(s, i + 2, b[2..], nl);
      } else {
        assert s[i + 1..i + |b|] == b[1..];
        BodyThenQuote(s, i + 1, b[1..], nl);
      }
    }
  }

  // ---------------------------------------------------------------------
  // extract_json_string

  /** Where the value of `key` starts: after the first occurrence of the
      quoted key, the first colon at or after it, and the run of spaces,
      tabs and colons that follows; None when any of these is missing or
      the text ends first. */
  function ValueStart(json: string, key: string): (r: Option<nat>)
    ensures r.Some? ==> r.value < |json| && !IsValueSep(json[r.value])
  {
    match Find(json, SearchKey(key), 0)
    case None => None
    case Some(k) =>
      match Find(json, ":", k)
      case None => None
      case Some(c) =>
        var p := SkipValueSeps(json, c);
        if p < |json| then Some(p) else None
  }

  /** The value extract_json_string returns. */
  function JsonString(json: string, key: string): string {
    match ValueStart(json, key)
    case None => ""
    case Some(p) =>
      if json[p] != '"' then Trim(json[p..RawEnd(json, p)])
      else
        var e := ScanQuoted(json, p + 1, true);
        if e < |json| && json[e] == '"' then json[p + 1..e] else ""
  }

  /** JsonString once the value start is known. */
  lemma JsonStringAt(json: string, key: string, p: nat)
    requires ValueStart(json, key) == Some(p)
    ensures JsonString(json, key) ==
              if json[p] != '"' then Trim(json[p..RawEnd(json, p)])
              else
                var e := ScanQuoted(json, p + 1, true);
                if e < |json| && json[e] == '"' then json[p + 1..e] else ""
  {
  }

  /** The search for the key and the colon after it, and the loop over
      the spaces, tabs and colons that follow. */
  method FindValueStart(json: string, key: string) returns (r: Option<nat>)
    ensures r == ValueStart(json, key)
  {
    var found := Find(json, SearchKey(key), 0);
    if found.None? {
      return None;
    }
    var colon := Find(json, ":", found.value);
    if colon.None? {
      return None;
    }
    var pos := colon.value;
    while pos < |json| && (json[pos] == ' ' || json[pos] == ':' || json[pos] == '\t')
      invariant colon.value <= pos <= |json|
      invariant SkipValueSeps(json, pos) == SkipValueSeps(json, colon.value)
    {
      pos := pos + 1;
    }
    if pos >= |json| {
      return None;
    }
    return Some(pos);
  }

  /** The loop to the first ',', '}' or newline. */
  method FindRawEnd(json: string, pos: nat) returns (end: nat)
    requires pos <= |json|
    ensures end == RawEnd(json, pos)
  {
    end := pos;
    while end < |json| && json[end] != ',' && json[end] != '}' && json[end] != '\n'
      invariant pos <= end <= |json|
      invariant RawEnd(json, end) == RawEnd(json, pos)
    {
      end := end + 1;
    }
  }

  /** The loop to the closing quote, stepping over backslash pairs (and,
      with `nl`, stopping at a newline). */
  method FindClosingQuote(json: string, pos: nat, nl: bool) returns (end: nat)
    requires pos <= |json|
    ensures end == ScanQuoted(json, pos, nl)
  {
    end := pos;
    while end < |json| && json[end] != '"' && !(nl && json[end] == '\n')
      invariant pos <= end <= |json|
      invariant ScanQuoted(json, end, nl) == ScanQuoted(json, pos, nl)
    {
      if json[end] == '\\' && end + 1 < |json| {
        end := end + 2;
      } else {
        end := end + 1;
      }
    }
  }

  /** extract_json_string (src/device_config.cpp and src/config.cpp). */
  method ExtractJsonString(json: string, key: string) returns (r: string)
    ensures r == JsonString(json, key)
  {
    var start := FindValueStart(json, key);
    if start.None? {
      return "";
    }
    var pos := start.value;
    JsonStringAt(json, key, pos);
    if json[pos] != '"' {
      var end := FindRawEnd(json, pos);
      return Trim(json[pos..end]);
    }
    var end := FindClosingQuote(json, pos + 1, true);
    if end >= |json| || json[end] != '"' {
      return "";
    }
    return json[pos + 1..end];
  }

  /** The quoted scan of a value that is a well-formed body and its quote. */
  lemma QuotedScanAt(json: string, p: nat, e: nat)
    requires p < e < |json| && Body(json[p + 1..e], true) && json[e] == '"'
    ensures ScanQuoted(json, p + 1, true) == e
  {
    BodyThenQuote(json, p + 1, json[p + 1..e], true);
  }

  /** A quoted value yields exactly the well-formed body before the first
      unescaped closing quote, backslash pairs included as written. */
  lemma QuotedValue(json: string, key: string, p: nat, e: nat)
    requires ValueStart(json, key) == Some(p) && json[p] == '"'
    requires p < e < |json| && Body(json[p + 1..e], true) && json[e] == '"'
    ensures JsonString(json, key) == json[p + 1..e]
  {
    QuotedScanAt(json, p, e);
    JsonStringAt(json, key, p);
  }

  /** Whatever a quoted value yields is empty or a well-formed body that
      stands in the text right after the opening quote and before a quote. */
  lemma QuotedResult(json: string, key: string, p: nat)
    requires ValueStart(json, key) == Some(p) && json[p] == '"'
    ensures JsonString(json, key) == "" ||
              (p + 1 + |JsonString(json, key)| < |json|
               && json[p + 1..p + 1 + |JsonString(json, key)|] == JsonString(json, key)
               && json[p + 1 + |JsonString(json, key)|] == '"'
               && Body(JsonString(json, key), true))
  {
    ScanIsBody(json, p + 1, true);
    JsonStringAt(json, key, p);
  }

  /** An unterminated value (no quote closes a well-formed body, for
      instance because a newline or the end comes first) yields "". */
  lemma QuotedUnterminated(json: string, key: string, p: nat)
    requires ValueStart(json, key) == Some(p) && json[p] == '"'
    requires forall m :: p + 1 <= m < |json| && json[m] == '"' ==> !Body(json[p + 1..m], true)
    ensures JsonString(json, key) == ""
  {
    ScanIsBody(json, p + 1, true);
    JsonStringAt(json, key, p);
  }

  /** The unquoted scan stops at the first ',', '}' or newline. */
  lemma {:induction false} RawEndAt(json: string, p: nat, t: string)
    requires p + |t| <= |json| && json[p..p + |t|] == t
    requires forall k :: 0 <= k < |t| ==> !IsRawStop(t[k])
    requires p + |t| == |json| || IsRawStop(json[p + |t|])
    decreases |t|
    ensures RawEnd(json, p) == p + |t|
    ensures json[p..RawEnd(json, p)] == t
  {
    if t != [] {
      assert json[p] == t[0];
      assert json[p + 1..p + |t|] == t[1..];
      RawEndAt(json, p + 1, t[1..]);
    }
  }

  /** An unquoted value is the text up to the first ',', '}' or newline
      (or the end), trimmed of spaces and tabs; all blanks give "". */
  lemma RawValue(json: string, key: string, p: nat, t: string)
    requires ValueStart(json, key) == Some(p) && json[p] != '"'
    requires p + |t| <= |json| && json[p..p + |t|] == t
    requires forall k :: 0 <= k < |t| ==> !IsRawStop(t[k])
    requires p + |t| == |json| || IsRawStop(json[p + |t|])
    ensures JsonString(json, key) == Trim(t)
    ensures (forall k :: 0 <= k < |t| ==> IsBlank(t[k])) ==> JsonString(json, key) == ""
  {
    RawEndAt(json, p, t);
    JsonStringAt(json, key, p);
    if forall k :: 0 <= k < |t| ==> IsBlank(t[k]) {
      TrimAllBlank(t);
    }
  }

  /** A key that does not occur yields "". */
  lemma MissingKey(json: string, key: string)
    requires forall j :: !OccursAt(json, SearchKey(key), j)
    ensures JsonString(json, key) == ""
  {
  }

  // ---------------------------------------------------------------------
  // extract_json_array

  /** The element loop over the text between '[' and ']'. */
  function Elements(c: string, i: nat): (r: seq<string>)
    requires i <= |c|
    decreases |c| - i
  {
    var j := SkipArraySeps(c, i);
    if j >= |c| || c[j] != '"' then []
    else
      var e := ScanQuoted(c, j + 1, false);
      if e >= |c| then []
      else
        [c[j + 1..e]] + Elements(c, e + 1)
  }

  /** Every element read is a well-formed body. */
  lemma {:induction false} ElementsAreBodies(c: string, i: nat)
    requires i <= |c|
    decreases |c| - i
    ensures forall k :: 0 <= k < |Elements(c, i)| ==> Body(Elements(c, i)[k], false)
  {
    var j := SkipArraySeps(c, i);
    if j < |c| && c[j] == '"' {
      var e := ScanQuoted(c, j + 1, false);
      if e < |c| {
        ScanIsBody(c, j + 1, false);
        ElementsAreBodies(c, e + 1);
        ElementsNext(c, i, j, e);
      }
    }
  }

  /** Where the array of `key` lies: the first '[' after the key and the
      first ']' after that. */
  function ArraySpan(json: string, key: string): (r: Option<(nat, nat)>)
    ensures r.Some? ==> r.value.0 < r.value.1 < |json|
  {
    match Find(json, SearchKey(key), 0)
    case None => None
    case Some(k) =>
      match Find(json, "[", k)
      case None => None
      case Some(b) =>
        match Find(json, "]", b + 1)
        case None => None
        case Some(e) => Some((b, e))
  }

  /** The value extract_json_array returns. */
  function JsonArray(json: string, key: string): seq<string> {
    match ArraySpan(json, key)
    case None => []
    case Some((b, e)) => Elements(json[b + 1..e], 0)
  }

  /** extract_json_array (src/device_config.cpp). */
  method ExtractJsonArray(json: string, key: string) returns (result: seq<string>)
    ensures result == JsonArray(json, key)
  {
    result := [];
    var found := Find(json, SearchKey(key), 0);
    if found.None? {
      return;
    }
    var open := Find(json, "[", found.value);
    if open.None? {
      return;
    }
    var pos := open.value + 1;
    var close := Find(json, "]", pos);
    if close.None? {
      return;
    }
    result := ReadElements(json[pos..close.value]);
  }

  /** The loop over spaces, commas, tabs and newlines between elements. */
  method SkipSeparators(content: string, i: nat) returns (j: nat)
    requires i <= |content|
    ensures j == SkipArraySeps(content, i)
  {
    j := i;
    while j < |content| && (content[j] == ' ' || content[j] == ',' || content[j] == '\t' || content[j] == '\n')
      invariant i <= j <= |content|
      invariant SkipArraySeps(content, j) == SkipArraySeps(content, i)
    {
      j := j + 1;
    }
  }

  /** The element loop of extract_json_array over the array content. */
  method ReadElements(content: string) returns (result: seq<string>)
    ensures result == Elements(content, 0)
  {
    result := [];
    var elemStart := 0;
    while elemStart < |content|
      invariant 0 <= elemStart <= |content|
      invariant result + Elements(content, elemStart) == Elements(content, 0)
    {
      ghost var top := elemStart;
      elemStart := SkipSeparators(content, elemStart);
      if elemStart >= |content| || content[elemStart] != '"' {
        ElementsNone(content, top, elemStart);
        assert result + [] == result;
        break;
      }
      var elemEnd := FindClosingQuote(content, elemStart + 1, false);
      if elemEnd >= |content| {
        ElementsUnclosed(content, top, elemStart, elemEnd);
        assert result + [] == result;
        break;
      }
      var x := content[elemStart + 1..elemEnd];
      ghost var rest := Elements(content, elemEnd + 1);
      ElementsNext(content, top, elemStart, elemEnd);
      assert (result + [x]) + rest == result + ([x] + rest);
      result := result + [x];
      elemStart := elemEnd + 1;
    }
  }

  /** The rounds of the element loop: no opening quote after the
      separators, no closing quote, or one more element. */
  lemma ElementsNone(c: string, i: nat, j: nat)
    requires i <= |c| && j == SkipArraySeps(c, i) && (j >= |c| || c[j] != '"')
    ensures Elements(c, i) == []
  {
  }

  lemma ElementsUnclosed(c: string, i: nat, j: nat, e: nat)
    requires i <= |c| && j == SkipArraySeps(c, i) && j < |c| && c[j] == '"'
    requires e == ScanQuoted(c, j + 1, false) && e >= |c|
    ensures Elements(c, i) == []
  {
  }

  lemma ElementsNext(c: string, i: nat, j: nat, e: nat)
    requires i <= |c| && j == SkipArraySeps(c, i) && j < |c| && c[j] == '"'
    requires e == ScanQuoted(c, j + 1, false) && e < |c|
    ensures Elements(c, i) == [c[j + 1..e]] + Elements(c, e + 1)
  {
  }

  /** The separator loop stops after exactly the run of separators. */
  lemma {:induction false} SkipArraySepsAt(c: string, i: nat, n: nat)
    requires i + n <= |c|
    requires forall k :: i <= k < i + n ==> IsArraySep(c[k])
    requires i + n == |c| || !IsArraySep(c[i + n])
    decreases n
    ensures SkipArraySeps(c, i) == i + n
  {
    if n > 0 {
      SkipArraySepsAt(c, i + 1, n - 1);
    }
  }

  /** One element: separators, a quote, a well-formed body and its closing
      quote contribute that body, in order, ahead of what follows. */
  lemma ElementsCons(c: string, i: nat, n: nat, x: string)
    requires i + n + |x| + 1 < |c|
    requires forall k :: i <= k < i + n ==> IsArraySep(c[k])
    requires c[i + n] == '"' && Body(x, false)
    requires c[i + n + 1..i + n + 1 + |x|] == x && c[i + n + 1 + |x|] == '"'
    ensures Elements(c, i) == [x] + Elements(c, i + n + |x| + 2)
  {
    SkipArraySepsAt(c, i, n);
    var j := i + n;
    BodyThenQuote(c, j + 1, x, false);
    var e := j + 1 + |x|;
    ElementsNext(c, i, j, e);
    assert c[j + 1..e] == x;
    assert e + 1 == i + n + |x| + 2;
  }

  /** The loop stops, with nothing more, at the end or at the first
      element that does not start with a quote. */
  lemma ElementsStop(c: string, i: nat, n: nat)
    requires i + n <= |c|
    requires forall k :: i <= k < i + n ==> IsArraySep(c[k])
    requires i + n == |c| || (c[i + n] != '"' && !IsArraySep(c[i + n]))
    ensures Elements(c, i) == []
  {
    SkipArraySepsAt(c, i, n);
    var j := SkipArraySeps(c, i);
  }

  /** An element that is never closed ends the loop. */
  lemma ElementsUnterminated(c: string, i: nat, n: nat)
    requires i + n < |c|
    requires forall k :: i <= k < i + n ==> IsArraySep(c[k])
    requires c[i + n] == '"'
    requires forall m :: i + n + 1 <= m < |c| && c[m] == '"' ==> !Body(c[i + n + 1..m], false)
    ensures Elements(c, i) == []
  {
    SkipArraySepsAt(c, i, n);
    var j := SkipArraySeps(c, i);
    assert j == i + n;
    ScanIsBody(c, j + 1, false);
  }

  /** No element of the array survives past the first ']' after '[':
      every element is a slice of the text between them, so none holds
      a ']' of its own. */
  lemma {:induction false} ElementsWithin(c: string, i: nat)
    requires i <= |c|
    requires forall k :: 0 <= k < |c| ==> c[k] != ']'
    decreases |c| - i
    ensures forall k :: 0 <= k < |Elements(c, i)| ==> ']' !in Elements(c, i)[k]
  {
    var j := SkipArraySeps(c, i);
    if j < |c| && c[j] == '"' {
      var e := ScanQuoted(c, j + 1, false);
      if e < |c| {
        ElementsWithin(c, e + 1);
        var x := c[j + 1..e];
        assert forall m :: 0 <= m < |x| ==> x[m] == c[j + 1 + m];
        ElementsNext(c, i, j, e);
      }
    }
  }

  /** A missing key, '[' or ']' gives the empty sequence. */
  lemma ArrayMissing(json: string, key: string)
    requires (forall j :: !OccursAt(json, SearchKey(key), j))
             || (forall j :: !OccursAt(json, "[", j))
             || (forall j :: !OccursAt(json, "]", j))
    ensures JsonArray(json, key) == []
  {
  }

  /** JsonArray reads the elements of the text between the first '[' after
      the key and the first ']' after that. */
  lemma ArrayContent(json: string, key: string, k: nat, b: nat, e: nat)
    requires Find(json, SearchKey(key), 0) == Some(k)
    requires k <= b < e < |json| && json[b] == '[' && json[e] == ']'
    requires forall m :: k <= m < b ==> json[m] != '['
    requires forall m :: b < m < e ==> json[m] != ']'
    ensures JsonArray(json, key) == Elements(json[b + 1..e], 0)
  {
    SpanAt(json, key, k, b, e);
    ArrayOfSpan(json, key, b, e);
  }

  lemma ArrayOfSpan(json: string, key: string, b: nat, e: nat)
    requires ArraySpan(json, key) == Some((b, e))
    ensures JsonArray(json, key) == Elements(json[b + 1..e], 0)
  {
  }

  lemma SpanAt(json: string, key: string, k: nat, b: nat, e: nat)
    requires Find(json, SearchKey(key), 0) == Some(k)
    requires k <= b < e < |json| && json[b] == '[' && json[e] == ']'
    requires forall m :: k <= m < b ==> json[m] != '['
    requires forall m :: b < m < e ==> json[m] != ']'
    ensures ArraySpan(json, key) == Some((b, e))
  {
    FindOpen(json, k, b);
    FindClose(json, b + 1, e);
    SpanOf(json, key, k, b, e);
  }

  lemma SpanOf(json: string, key: string, k: nat, b: nat, e: nat)
    requires Find(json, SearchKey(key), 0) == Some(k)
    requires Find(json, "[", k) == Some(b) && Find(json, "]", b + 1) == Some(e)
    ensures ArraySpan(json, key) == Some((b, e))
  {
  }

  lemma FindOpen(s: string, from: nat, i: nat)
    requires from <= i < |s| && s[i] == '['
    requires forall m :: from <= m < i ==> s[m] != '['
    ensures Find(s, "[", from) == Some(i)
  {
    FindChar(s, '[', from, i);
    assert "[" == ['['];
  }

  lemma FindClose(s: string, from: nat, i: nat)
    requires from <= i < |s| && s[i] == ']'
    requires forall m :: from <= m < i ==> s[m] != ']'
    ensures Find(s, "]", from) == Some(i)
  {
    FindChar(s, ']', from, i);
    assert "]" == [']'];
  }

  /** find of a one-character string: the first index at or after `from`
      holding that character. */
  lemma FindChar(s: string, c: char, from: nat, i: nat)
    requires from <= i < |s| && s[i] == c
    requires forall m :: from <= m < i ==> s[m] != c
    ensures Find(s, [c], from) == Some(i)
  {
    assert OccursAt(s, [c], i) by {
      assert s[i..i + 1] == [c];
    }
    var r := Find(s, [c], from);
    assert r.Some? && r.value <= i;
    assert s[r.value..r.value + 1] == [c];
    assert s[r.value] == c;
  }

  // ---------------------------------------------------------------------
  // The brace matcher (inline in update_device_config_from_json and in
  // extract_json_object)

  function Delta(c: char): int {
    if c == '{' then 1 else if c == '}' then -1 else 0
  }

  /** Number of '{' minus number of '}'. */
  function Depth(t: string): int
    decreases |t|
  {
    if t == [] then 0 else Depth(t[..|t| - 1]) + Delta(t[|t| - 1])
  }

  /** The loop from index `i` on, the brace count so far being positive. */
  function CloseFrom(s: string, p: nat, i: nat): (r: Option<nat>)
    requires p < |s| && s[p] == '{' && p <= i <= |s|
    requires forall k :: p < k <= i ==> Depth(s[p..k]) > 0
    decreases |s| - i
    ensures r.Some? ==> i < r.value <= |s| && s[r.value - 1] == '}' && Depth(s[p..r.value]) == 0
    ensures r.Some? ==> forall k :: p < k < r.value ==> Depth(s[p..k]) > 0
    ensures r.None? ==> forall k :: p < k <= |s| ==> Depth(s[p..k]) > 0
  {
    if i == |s| then None
    else
      assert s[p..i + 1][..i - p] == s[p..i];
      if s[i] == '}' && Depth(s[p..i + 1]) == 0 then Some(i + 1)
      else CloseFrom(s, p, i + 1)
  }

  /** The end (exclusive) of the object opened by the '{' at `p`: the
      first '}' that brings the count of open braces back to zero.  The
      matched object is brace-balanced, ends in '}', and every proper
      non-empty prefix of it has more '{' than '}'; without a match every
      prefix of the rest of the text does. */
  function MatchBrace(s: string, p: nat): (r: Option<nat>)
    requires p < |s| && s[p] == '{'
    ensures r.Some? ==> p < r.value <= |s| && s[r.value - 1] == '}' && Depth(s[p..r.value]) == 0
    ensures r.Some? ==> forall k :: p < k < r.value ==> Depth(s[p..k]) > 0
    ensures r.None? ==> forall k :: p < k <= |s| ==> Depth(s[p..k]) > 0
  {
    CloseFrom(s, p, p)
  }

  /** The brace-counting loop. */
  method MatchingBrace(s: string, p: nat) returns (r: Option<nat>)
    requires p < |s| && s[p] == '{'
    ensures r == MatchBrace(s, p)
  {
    var count := 0;
    var i := p;
    while i < |s|
      invariant p <= i <= |s|
      invariant count == Depth(s[p..i])
      invariant forall k :: p < k <= i ==> Depth(s[p..k]) > 0
      invariant CloseFrom(s, p, i) == MatchBrace(s, p)
    {
      assert s[p..i + 1][..i - p] == s[p..i];
      if s[i] == '{' {
        count := count + 1;
      }
      if s[i] == '}' {
        count := count - 1;
        if count == 0 {
          return Some(i + 1);
        }
      }
      i := i + 1;
    }
    return None;
  }
}
