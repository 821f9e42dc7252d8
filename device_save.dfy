/** The text save_device_config writes (src/device_config.cpp), and what
    the extractors read back from it. */
module DeviceSave {
  import opened Text
  import opened JsonExtract
  import opened JsonEscape
  import opened DeviceRecord

  /** `  "key": "<escaped value>",` and a newline. */
  function FieldLine(key: string, value: string): string {
    Layout(key, Escape(value))
  }

  function Layout(key: string, e: string): string {
    "  \"" + key + "\": \"" + e + "\",\n"
  }

  /** The ten fields in the order they are written. */
  function Fields(i: DeviceInfo): seq<(string, string)> {
    [("version", i.version), ("serial_number", i.serialNumber), ("model_type", i.modelType),
     ("device_type", i.deviceType), ("hardware_revision", i.hardwareRevision),
     ("production_date", i.productionDate), ("warranty_period", i.warrantyPeriod),
     ("build_date", i.buildDate), ("mode", i.mode), ("endpoint_port", i.endpointPort)]
  }

  function FieldLines(ps: seq<(string, string)>): string
    decreases |ps|
  {
    if ps == [] then "" else FieldLine(ps[0].0, ps[0].1) + FieldLines(ps[1..])
  }

  const InstancesHeader: string := "  \"instances\": [\n"

  /** One instance line: indented, quoted, escaped, a comma on all but the
      last, and a newline. */
  function ItemLine(xs: seq<string>, i: nat): string
    requires i < |xs|
  {
    "    \"" + Escape(xs[i]) + "\"" + (if i < |xs| - 1 then "," else "") + "\n"
  }

  /** The lines of instances lo .. hi-1. */
  function ItemLines(xs: seq<string>, lo: nat, hi: nat): string
    requires lo <= hi <= |xs|
    decreases hi
  {
    if lo == hi then "" else ItemLines(xs, lo, hi - 1) + ItemLine(xs, hi - 1)
  }

  /** The whole file: the fields of `info` and the instance list `xs`. */
  function SaveText(info: DeviceInfo, xs: seq<string>): string {
    "{\n" + FieldLines(Fields(info)) + ArrayText(ItemLines(xs, 0, |xs|))
  }

  /** The instances key, the bracketed instance lines, and the closing
      brace of the object. */
  function ArrayText(items: string): string {
    InstancesHeader + items + "  ]\n" + "}\n"
  }

  // ---------------------------------------------------------------------
  // Conditions under which the text reads back

  /** Characters the escaper copies unchanged. */
  predicate Plain(v: string) {
    forall k :: 0 <= k < |v| ==> v[k] != '"' && v[k] != '\\' && v[k] >= 0x20 as char
  }

  predicate IsKeyChar(c: char) {
    'a' <= c <= 'z' || c == '_'
  }

  predicate KeyLike(k: string) {
    k != [] && forall m :: 0 <= m < |k| ==> IsKeyChar(k[m])
  }

  const SavedKeys: seq<string> :=
    ["version", "serial_number", "model_type", "device_type", "hardware_revision",
     "production_date", "warranty_period", "build_date", "mode", "endpoint_port", "instances"]

  /** A field value that reads back: it needs no escaping and is not the
      name of a key (a value equal to a key name would be found first by
      the key search). */
  predicate SaveableValue(v: string) {
    Plain(v) && v !in SavedKeys
  }

  /** An instance that reads back: no escaping and no ']'. */
  predicate SaveableInstance(x: string) {
    Plain(x) && ']' !in x
  }

  // ---------------------------------------------------------------------
  // Generic facts

  lemma PlainEscape(v: string)
    requires Plain(v)
    ensures Escape(v) == v
  {
    EscapePlain(v);
  }

  lemma {:induction false} PlainIsBody(v: string, nl: bool)
    requires Plain(v)
    decreases |v|
    ensures Body(v, nl)
  {
    if v != [] {
      PlainIsBody(v[1..], nl);
    }
  }

  /** The first occurrence, stated by its defining properties. */
  lemma FindFirst(s: string, pat: string, p: nat)
    requires OccursAt(s, pat, p)
    requires NoOccBefore(s, pat, p)
    ensures Find(s, pat, 0) == Some(p)
  {
    var r := Find(s, pat, 0);
    assert r.Some? && r.value <= p;
  }

  lemma OccursShift(a: string, b: string, pat: string, q: nat)
    ensures OccursAt(a + b, pat, |a| + q) <==> OccursAt(b, pat, q)
  {
    if q + |pat| <= |b| {
      assert (a + b)[|a| + q..|a| + q + |pat|] == b[q..q + |pat|];
    }
  }

  /** An occurrence is ruled out by one position that differs. */
  lemma Mismatch(s: string, pat: string, q: nat, t: nat)
    requires t < |pat| && q + t < |s| && s[q + t] != pat[t]
    ensures !OccursAt(s, pat, q)
  {
    if q + |pat| <= |s| {
      assert s[q..q + |pat|][t] == s[q + t];
    }
  }

  /** An occurrence, character by character. */
  lemma OccursFrom(s: string, pat: string, p: nat)
    requires p + |pat| <= |s|
    requires forall t :: 0 <= t < |pat| ==> s[p + t] == pat[t]
    ensures OccursAt(s, pat, p)
  {
    assert s[p..p + |pat|] == pat;
  }

  lemma SearchKeyChars(k: string)
    ensures |SearchKey(k)| == |k| + 2
    ensures SearchKey(k)[0] == '"' && SearchKey(k)[|k| + 1] == '"'
    ensures forall m :: 0 <= m < |k| ==> SearchKey(k)[m + 1] == k[m]
  {
  }

  /** No occurrence of `pat` starts before index `n`. */
  predicate NoOccBefore(s: string, pat: string, n: nat) {
    forall q :: 0 <= q < n ==> !OccursAt(s, pat, q)
  }

  lemma NoOccExtend(s: string, pat: string, n: nat)
    requires NoOccBefore(s, pat, n) && !OccursAt(s, pat, n)
    ensures NoOccBefore(s, pat, n + 1)
  {
  }

  lemma NoOccConcat(a: string, b: string, pat: string, n: nat)
    requires NoOccBefore(a + b, pat, |a|) && NoOccBefore(b, pat, n)
    ensures NoOccBefore(a + b, pat, |a| + n)
  {
    forall q | |a| <= q < |a| + n
      ensures !OccursAt(a + b, pat, q)
    {
      OccursShift(a, b, pat, q - |a|);
    }
  }

  /** A prefix without quotes holds no occurrence of any "k". */
  lemma NoKeyInQuoteFree(A: string, rest: string, k: string)
    requires forall j :: 0 <= j < |A| ==> A[j] != '"'
    ensures NoOccBefore(A + rest, SearchKey(k), |A|)
  {
    forall q | 0 <= q < |A|
      ensures !OccursAt(A + rest, SearchKey(k), q)
    {
      Mismatch(A + rest, SearchKey(k), q, 0);
    }
  }

  // ---------------------------------------------------------------------
  // One field line

  lemma LayoutChars(key: string, e: string)
    ensures var L := Layout(key, e);
            && |L| == |key| + |e| + 10
            && L[0] == ' ' && L[1] == ' ' && L[2] == '"'
            && (forall m :: 0 <= m < |key| ==> L[3 + m] == key[m])
            && L[3 + |key|] == '"' && L[4 + |key|] == ':' && L[5 + |key|] == ' ' && L[6 + |key|] == '"'
            && (forall m :: 0 <= m < |e| ==> L[7 + |key| + m] == e[m])
            && L[7 + |key| + |e|] == '"' && L[8 + |key| + |e|] == ',' && L[9 + |key| + |e|] == '\n'
  {
  }

  /** Where a quoted stretch of the line could match "k": a text that is
      not `k`, between two quotes. */
  lemma StretchMismatch(s: string, q: nat, w: string, k: string)
    requires KeyLike(k) && w != k
    requires q + |w| + 1 < |s| && s[q] == '"' && s[q + 1 + |w|] == '"'
    requires forall m :: 0 <= m < |w| ==> s[q + 1 + m] == w[m] && w[m] != '"'
    ensures !OccursAt(s, SearchKey(k), q)
  {
    SearchKeyChars(k);
    var P := SearchKey(k);
    if |k| < |w| {
      assert s[q + 1 + |k|] == w[|k|];
      Mismatch(s, P, q, |k| + 1);
    } else if |k| > |w| {
      assert k[|w|] != '"';
      Mismatch(s, P, q, |w| + 1);
    } else {
      var m :| 0 <= m < |k| && k[m] != w[m];
      assert s[q + 1 + m] == w[m];
      Mismatch(s, P, q, m + 1);
    }
  }

  /** No line of another key, whose value is not `k`, holds "k". */
  lemma NoKeyInLayout(k: string, key: string, e: string, rest: string)
    requires KeyLike(k) && KeyLike(key) && Plain(e) && k != key && k != e
    ensures NoOccBefore(Layout(key, e) + rest, SearchKey(k), |Layout(key, e)|)
  {
    LayoutChars(key, e);
    SearchKeyChars(k);
    var L := Layout(key, e);
    var s := L + rest;
    var P := SearchKey(k);
    forall q | 0 <= q < |L|
      ensures !OccursAt(s, P, q)
    {
      if q == 2 {
        StretchMismatch(s, q, key, k);
      } else if q == 3 + |key| {
        Mismatch(s, P, q, 1);
      } else if q == 6 + |key| {
        StretchMismatch(s, q, e, k);
      } else if q == 7 + |key| + |e| {
        Mismatch(s, P, q, 1);
      } else {
        assert s[q] == L[q];
        Mismatch(s, P, q, 0);
      }
    }
  }

  /** A line of another key whose value is not `k`. */
  predicate OtherLine(q: (string, string), k: string) {
    KeyLike(q.0) && Plain(q.1) && q.0 != k && q.1 != k
  }

  lemma LinesCons(qs: seq<(string, string)>, rest: string)
    requires qs != []
    ensures FieldLines(qs) + rest == FieldLine(qs[0].0, qs[0].1) + (FieldLines(qs[1..]) + rest)
  {
  }

  lemma NoKeyInLine(q: (string, string), tail: string, k: string)
    requires KeyLike(k) && OtherLine(q, k)
    ensures NoOccBefore(FieldLine(q.0, q.1) + tail, SearchKey(k), |FieldLine(q.0, q.1)|)
  {
    PlainEscape(q.1);
    NoKeyInLayout(k, q.0, q.1, tail);
  }

  /** The lines of other keys, whose values are not `k`, hold no "k". */
  lemma {:induction false} NoKeyInLines(qs: seq<(string, string)>, rest: string, k: string)
    requires KeyLike(k)
    requires forall j :: 0 <= j < |qs| ==> OtherLine(qs[j], k)
    decreases |qs|
    ensures NoOccBefore(FieldLines(qs) + rest, SearchKey(k), |FieldLines(qs)|)
  {
    if qs != [] {
      var tl := qs[1..];
      forall j | 0 <= j < |tl|
        ensures OtherLine(tl[j], k)
      {
        assert tl[j] == qs[j + 1];
      }
      NoKeyInLines(tl, rest, k);
      NoKeyInLine(qs[0], FieldLines(tl) + rest, k);
      LinesCons(qs, rest);
      NoOccConcat(FieldLine(qs[0].0, qs[0].1), FieldLines(tl) + rest, SearchKey(k), |FieldLines(tl)|);
    }
  }

  lemma {:induction false} FieldLinesSplit(ps: seq<(string, string)>, m: nat)
    requires m <= |ps|
    decreases m
    ensures FieldLines(ps) == FieldLines(ps[..m]) + FieldLines(ps[m..])
  {
    if m == 0 {
      assert ps[..0] == [] && ps[0..] == ps;
    } else {
      var h := FieldLine(ps[0].0, ps[0].1);
      FieldLinesSplit(ps[1..], m - 1);
      assert ps[..m][1..] == ps[1..][..m - 1];
      assert ps[1..][m - 1..] == ps[m..];
      assert FieldLines(ps[..m]) == h + FieldLines(ps[1..][..m - 1]);
      Assoc(h, FieldLines(ps[1..][..m - 1]), FieldLines(ps[m..]));
    }
  }

  /** The characters of a field line of key `k` and text `e` at index
      `at` of `s`. */
  predicate LineAt(s: string, at: nat, k: string, e: string) {
    && at + |k| + |e| + 10 <= |s|
    && s[at] == ' ' && s[at + 1] == ' ' && s[at + 2] == '"'
    && (forall m :: 0 <= m < |k| ==> s[at + 3 + m] == k[m])
    && s[at + 3 + |k|] == '"' && s[at + 4 + |k|] == ':' && s[at + 5 + |k|] == ' ' && s[at + 6 + |k|] == '"'
    && (forall m :: 0 <= m < |e| ==> s[at + 7 + |k| + m] == e[m])
    && s[at + 7 + |k| + |e|] == '"'
  }

  lemma LayoutAt(pre: string, k: string, e: string, post: string)
    ensures LineAt(pre + (Layout(k, e) + post), |pre|, k, e)
  {
    LayoutChars(k, e);
    var L := Layout(k, e);
    var s := pre + (L + post);
    forall j | 0 <= j < |L|
      ensures s[|pre| + j] == L[j]
    {
    }
  }

  /** The key search stops at the line of `k` when nothing before it
      matches. */
  lemma KeyAt(s: string, at: nat, k: string, e: string)
    requires LineAt(s, at, k, e)
    requires NoOccBefore(s, SearchKey(k), at)
    ensures Find(s, SearchKey(k), 0) == Some(at + 2)
  {
    SearchKeyChars(k);
    assert forall t :: 0 <= t < |k| + 2 ==> s[at + 2 + t] == SearchKey(k)[t];
    KeyAfterIndent(s, at, k);
  }

  /** Once the key is found on its line, extract_json_string returns the
      text between the value's quotes. */
  lemma LineValue(s: string, at: nat, k: string, e: string)
    requires LineAt(s, at, k, e) && KeyLike(k) && Plain(e)
    requires Find(s, SearchKey(k), 0) == Some(at + 2)
    ensures JsonString(s, k) == e
  {
    var v := at + 6 + |k|;
    ValueAt(s, at, k, e);
    TextAt(s, at, k, e);
    PlainIsBody(e, true);
    QuotedValue(s, k, v, v + 1 + |e|);
  }

  /** The value of a found key starts at the quote after ": ". */
  lemma ValueAt(s: string, at: nat, k: string, e: string)
    requires LineAt(s, at, k, e) && KeyLike(k)
    requires Find(s, SearchKey(k), 0) == Some(at + 2)
    ensures ValueStart(s, k) == Some(at + 6 + |k|)
  {
    var c := at + 4 + |k|;
    ColonAfterKey(s, at, k, e);
    assert ":" == [':'];
    assert SkipValueSeps(s, c + 2) == c + 2;
    assert SkipValueSeps(s, c + 1) == c + 2;
    assert SkipValueSeps(s, c) == c + 2;
  }

  lemma TextAt(s: string, at: nat, k: string, e: string)
    requires LineAt(s, at, k, e)
    ensures s[at + 7 + |k|..at + 7 + |k| + |e|] == e
  {
  }

  /** The colon after the quoted key is the first one from the key on. */
  lemma ColonAfterKey(s: string, at: nat, k: string, e: string)
    requires LineAt(s, at, k, e) && KeyLike(k)
    ensures Find(s, [':'], at + 2) == Some(at + 4 + |k|)
  {
    forall m | at + 2 <= m < at + 4 + |k|
      ensures s[m] != ':'
    {
      if at + 3 <= m < at + 3 + |k| {
        assert s[m] == k[m - at - 3];
        assert IsKeyChar(k[m - at - 3]);
      }
    }
    FindChar(s, ':', at + 2, at + 4 + |k|);
  }

  lemma Regroup(a: string, b: string, c: string, d: string, e: string)
    ensures (a + (b + (c + d))) + e == (a + b) + (c + (d + e))
  {
  }

  /** The field lines around the line of entry `m`. */
  lemma FieldLinesAround(ps: seq<(string, string)>, m: nat)
    requires m < |ps| && Plain(ps[m].1)
    ensures FieldLines(ps) == FieldLines(ps[..m]) + (Layout(ps[m].0, ps[m].1) + FieldLines(ps[m + 1..]))
  {
    FieldLinesSplit(ps, m);
    PlainEscape(ps[m].1);
    assert ps[m..][1..] == ps[m + 1..];
  }

  /** The key search skips a quote-free prefix and the lines of other
      keys whose values are not `k`. */
  lemma NoKeyBefore(A: string, qs: seq<(string, string)>, rest: string, k: string)
    requires forall j :: 0 <= j < |A| ==> A[j] != '"'
    requires KeyLike(k)
    requires forall j :: 0 <= j < |qs| ==> KeyLike(qs[j].0) && Plain(qs[j].1) && qs[j].0 != k && qs[j].1 != k
    ensures NoOccBefore((A + FieldLines(qs)) + rest, SearchKey(k), |A + FieldLines(qs)|)
  {
    var before := FieldLines(qs);
    NoKeyInQuoteFree(A, before + rest, k);
    NoKeyInLines(qs, rest, k);
    NoOccConcat(A, before + rest, SearchKey(k), |before|);
    assert A + (before + rest) == (A + before) + rest;
  }

  /** Each field line reads back, through extract_json_string, as its
      value. */
  lemma FieldLookup(A: string, ps: seq<(string, string)>, m: nat, R: string)
    requires forall j :: 0 <= j < |A| ==> A[j] != '"'
    requires m < |ps|
    requires forall j :: 0 <= j < |ps| ==> KeyLike(ps[j].0) && Plain(ps[j].1)
    requires forall j :: 0 <= j < m ==> ps[j].0 != ps[m].0 && ps[j].1 != ps[m].0
    ensures JsonString(A + FieldLines(ps) + R, ps[m].0) == ps[m].1
  {
    var k, v := ps[m].0, ps[m].1;
    var before, after := FieldLines(ps[..m]), FieldLines(ps[m + 1..]);
    FieldLinesAround(ps, m);
    Regroup(A, before, Layout(k, v), after, R);
    NoKeyBefore(A, ps[..m], Layout(k, v) + (after + R), k);
    LineLookup(A + before, k, v, after + R);
  }

  /** A field line reads back as its text once nothing before it holds
      the key. */
  lemma LineLookup(pre: string, k: string, e: string, post: string)
    requires KeyLike(k) && Plain(e)
    requires NoOccBefore(pre + (Layout(k, e) + post), SearchKey(k), |pre|)
    ensures JsonString(pre + (Layout(k, e) + post), k) == e
  {
    LayoutAt(pre, k, e, post);
    KeyAt(pre + (Layout(k, e) + post), |pre|, k, e);
    LineValue(pre + (Layout(k, e) + post), |pre|, k, e);
  }

  // ---------------------------------------------------------------------
  // The instance lines

  lemma NotInConcat(a: string, b: string, ch: char)
    requires ch !in a && ch !in b
    ensures ch !in a + b
  {
  }

  lemma {:induction false} ItemLinesFront(xs: seq<string>, lo: nat, hi: nat)
    requires lo < hi <= |xs|
    decreases hi
    ensures ItemLines(xs, lo, hi) == ItemLine(xs, lo) + ItemLines(xs, lo + 1, hi)
  {
    if lo + 1 < hi {
      ItemLinesFront(xs, lo, hi - 1);
      Assoc(ItemLine(xs, lo), ItemLines(xs, lo + 1, hi - 1), ItemLine(xs, hi - 1));
    }
  }

  lemma ItemLineNoBracket(xs: seq<string>, i: nat)
    requires i < |xs| && SaveableInstance(xs[i])
    ensures ']' !in ItemLine(xs, i)
  {
    PlainEscape(xs[i]);
  }

  lemma {:induction false} ItemLinesNoBracket(xs: seq<string>, lo: nat, hi: nat)
    requires lo <= hi <= |xs|
    requires forall j :: 0 <= j < |xs| ==> SaveableInstance(xs[j])
    decreases hi
    ensures ']' !in ItemLines(xs, lo, hi)
  {
    if lo < hi {
      ItemLinesNoBracket(xs, lo, hi - 1);
      ItemLineNoBracket(xs, hi - 1);
      NotInConcat(ItemLines(xs, lo, hi - 1), ItemLine(xs, hi - 1), ']');
    }
  }

  /** The characters of one instance line, followed by `tail`. */
  lemma ItemChars(c: string, i: nat, x: string, tail: string)
    requires i <= |c| && c[i..] == "    \"" + x + "\"" + tail
    ensures i + 6 + |x| <= |c|
    ensures forall k :: i <= k < i + 4 ==> c[k] == ' '
    ensures c[i + 4] == '"' && c[i + 5 + |x|] == '"'
    ensures c[i + 5..i + 5 + |x|] == x
    ensures c[i + 6 + |x|..] == tail
  {
    var t := c[i..];
    assert forall k :: i <= k < |c| ==> c[k] == t[k - i];
    assert t[5..5 + |x|] == x;
    assert c[i + 5..i + 5 + |x|] == t[5..5 + |x|];
    assert t[6 + |x|..] == tail;
    assert c[i + 6 + |x|..] == t[6 + |x|..];
  }

  /** The separators that follow an instance: a comma unless it is the
      last, then a newline. */
  lemma SepChars(c: string, i: nat, n: nat, rest: string)
    requires (n == 1 || n == 2) && i <= |c|
    requires c[i..] == (if n == 2 then "," else "") + "\n" + rest
    ensures i + n <= |c|
    ensures forall k :: i <= k < i + n ==> IsArraySep(c[k])
    ensures c[i + n..] == rest
  {
    var t := c[i..];
    assert forall k :: i <= k < |c| ==> c[k] == t[k - i];
    assert t[n..] == rest;
    assert c[i + n..] == t[n..];
  }

  /** The instance lines from `j` on, split after the first one. */
  lemma ItemLinesSplit(xs: seq<string>, j: nat, n: nat)
    requires j < |xs| && Plain(xs[j])
    requires n == if j < |xs| - 1 then 2 else 1
    ensures ItemLines(xs, j, |xs|) + "  " ==
              "    \"" + xs[j] + "\"" + (((if n == 2 then "," else "") + "\n") + (ItemLines(xs, j + 1, |xs|) + "  "))
  {
    PlainEscape(xs[j]);
    ItemLinesFront(xs, j, |xs|);
    var h := "    \"" + xs[j] + "\"";
    var comma := if n == 2 then "," else "";
    var L := ItemLines(xs, j + 1, |xs|);
    assert ItemLine(xs, j) == (h + comma) + "\n";
    Assoc(ItemLine(xs, j), L, "  ");
    Assoc(h + comma, "\n", L + "  ");
    Assoc(h, comma, "\n" + (L + "  "));
    Assoc(comma, "\n", L + "  ");
  }

  /** One instance line, as the element loop sees it: four spaces, the
      quoted text `x`, and `n` separators. */
  predicate ItemHead(c: string, q: nat, x: string, n: nat) {
    && q + 6 + |x| + n <= |c|
    && (forall k :: q <= k < q + 4 ==> c[k] == ' ')
    && c[q + 4] == '"' && c[q + 5 + |x|] == '"'
    && c[q + 5..q + 5 + |x|] == x
    && (forall k :: q + 6 + |x| <= k < q + 6 + |x| + n ==> IsArraySep(c[k]))
  }

  lemma ItemStep(c: string, i: nat, x: string, n: nat, rest: string)
    requires (n == 1 || n == 2) && i <= |c|
    requires c[i..] == "    \"" + x + "\"" + (((if n == 2 then "," else "") + "\n") + rest)
    ensures ItemHead(c, i, x, n)
    ensures c[i + 6 + |x| + n..] == rest
  {
    var tail := ((if n == 2 then "," else "") + "\n") + rest;
    ItemChars(c, i, x, tail);
    SepChars(c, i + 6 + |x|, n, rest);
  }

  /** ElementsCons for an element indented by four spaces. */
  lemma ElementsAfter(c: string, i: nat, sepLen: nat, x: string)
    requires i + sepLen + 6 + |x| <= |c| && Plain(x)
    requires forall k :: i <= k < i + sepLen + 4 ==> IsArraySep(c[k])
    requires c[i + sepLen + 4] == '"' && c[i + sepLen + 5 + |x|] == '"'
    requires c[i + sepLen + 5..i + sepLen + 5 + |x|] == x
    ensures Elements(c, i) == [x] + Elements(c, i + sepLen + 6 + |x|)
  {
    PlainIsBody(x, false);
    ElementsCons(c, i, sepLen + 4, x);
  }

  lemma SuffixCons(xs: seq<string>, j: nat)
    requires j < |xs|
    ensures xs[j..] == [xs[j]] + xs[j + 1..]
  {
  }

  /** The first item line lies at `q`, and the remaining lines follow it. */
  lemma LaidOutStep(c: string, q: nat, xs: seq<string>, j: nat, x: string, n: nat, q1: nat)
    requires j < |xs| && q <= |c| && x == xs[j] && Plain(x)
    requires n == (if j < |xs| - 1 then 2 else 1) && q1 == q + 6 + |x| + n
    requires c[q..] == ItemLines(xs, j, |xs|) + "  "
    ensures ItemHead(c, q, x, n) && q1 <= |c|
    ensures c[q1..] == ItemLines(xs, j + 1, |xs|) + "  "
  {
    var rest := ItemLines(xs, j + 1, |xs|) + "  ";
    ItemLinesSplit(xs, j, n);
    ItemStep(c, q, x, n, rest);
  }

  /** Two spaces at the end close the element loop. */
  lemma ElementsAtEnd(c: string, i: nat, sepLen: nat)
    requires i + sepLen + 2 == |c|
    requires forall k :: i <= k < i + sepLen ==> IsArraySep(c[k])
    requires c[i + sepLen] == ' ' && c[i + sepLen + 1] == ' '
    ensures Elements(c, i) == []
  {
    ElementsStop(c, i, sepLen + 2);
  }

  /** The element loop reads the instance lines, from the `j`th on, back
      as the instances. */
  lemma {:induction false} ItemsElements(c: string, i: nat, sepLen: nat, xs: seq<string>, j: nat)
    requires j <= |xs| && i + sepLen <= |c|
    requires forall k :: i <= k < i + sepLen ==> IsArraySep(c[k])
    requires c[i + sepLen..] == ItemLines(xs, j, |xs|) + "  "
    requires forall m :: 0 <= m < |xs| ==> Plain(xs[m])
    decreases |xs| - j
    ensures Elements(c, i) == xs[j..]
  {
    var q := i + sepLen;
    if j == |xs| {
      ClosingSpaces(c, q, xs);
      ElementsAtEnd(c, i, sepLen);
      assert xs[j..] == [];
    } else {
      var x, n := xs[j], if j < |xs| - 1 then 2 else 1;
      var i1 := q + 6 + |x|;
      ItemNext(c, i, sepLen, xs, j, x, n, i1);
      ItemsElements(c, i1, n, xs, j + 1);
      SuffixCons(xs, j);
    }
  }

  lemma ClosingSpaces(c: string, q: nat, xs: seq<string>)
    requires q <= |c| && c[q..] == ItemLines(xs, |xs|, |xs|) + "  "
    ensures q + 2 == |c| && c[q] == ' ' && c[q + 1] == ' '
  {
    assert c[q..] == "  ";
    assert c[q] == c[q..][0];
    assert c[q + 1] == c[q..][1];
  }

  /** After the first item line the element loop goes on with the next
      one. */
  lemma ItemNext(c: string, i: nat, sepLen: nat, xs: seq<string>, j: nat, x: string, n: nat, i1: nat)
    requires j < |xs| && x == xs[j] && n == (if j < |xs| - 1 then 2 else 1) && Plain(x)
    requires i + sepLen <= |c| && i1 == i + sepLen + 6 + |x|
    requires forall k :: i <= k < i + sepLen ==> IsArraySep(c[k])
    requires c[i + sepLen..] == ItemLines(xs, j, |xs|) + "  "
    ensures i1 + n <= |c| && forall k :: i1 <= k < i1 + n ==> IsArraySep(c[k])
    ensures c[i1 + n..] == ItemLines(xs, j + 1, |xs|) + "  "
    ensures Elements(c, i) == [x] + Elements(c, i1)
  {
    LaidOutStep(c, i + sepLen, xs, j, x, n, i1 + n);
    ItemElement(c, i, sepLen, x, n);
  }

  /** The element loop reads one item line as its instance. */
  lemma ItemElement(c: string, i: nat, sepLen: nat, x: string, n: nat)
    requires i + sepLen <= |c| && Plain(x)
    requires forall k :: i <= k < i + sepLen ==> IsArraySep(c[k])
    requires ItemHead(c, i + sepLen, x, n)
    ensures Elements(c, i) == [x] + Elements(c, i + sepLen + 6 + |x|)
  {
    assert forall k :: i <= k < i + sepLen + 4 ==> IsArraySep(c[k]);
    ElementsAfter(c, i, sepLen, x);
  }

  /** The text between the brackets of the instance list. */
  function ItemsContent(xs: seq<string>): string {
    "\n" + ItemLines(xs, 0, |xs|) + "  "
  }

  /** The text between the brackets reads back as the instances. */
  lemma InstanceContent(xs: seq<string>)
    requires forall m :: 0 <= m < |xs| ==> SaveableInstance(xs[m])
    ensures Elements(ItemsContent(xs), 0) == xs
  {
    var content := ItemsContent(xs);
    assert content[1..] == ItemLines(xs, 0, |xs|) + "  ";
    ItemsElements(content, 0, 1, xs, 0);
    assert xs[0..] == xs;
  }

  // ---------------------------------------------------------------------
  // The round trip

  lemma FieldsShape(info: DeviceInfo)
    ensures |Fields(info)| == 10
    ensures forall j :: 0 <= j < 10 ==> KeyLike(Fields(info)[j].0) && Fields(info)[j].0 in SavedKeys
    ensures forall j, m :: 0 <= j < m < 10 ==> Fields(info)[j].0 != Fields(info)[m].0
    ensures KeyLike("instances") && "instances" in SavedKeys
    ensures forall j :: 0 <= j < 10 ==> Fields(info)[j].0 != "instances"
  {
    FieldKeys(info);
    SavedKeysLike();
    SavedKeysDistinct();
  }

  /** The keys of the fields are the first ten saved keys. */
  lemma FieldKeys(info: DeviceInfo)
    ensures |Fields(info)| == 10 && |SavedKeys| == 11
    ensures forall j :: 0 <= j < 10 ==> Fields(info)[j].0 == SavedKeys[j]
    ensures SavedKeys[10] == "instances"
  {
  }

  lemma SavedKeysLike()
    ensures forall j :: 0 <= j < |SavedKeys| ==> KeyLike(SavedKeys[j])
  {
    forall j | 0 <= j < |SavedKeys|
      ensures KeyLike(SavedKeys[j])
    {
      var k := SavedKeys[j];
      assert forall m :: 0 <= m < |k| ==> IsKeyChar(k[m]);
    }
  }

  /** No two saved keys are equal: they differ in length or in their
      first character. */
  lemma SavedKeysDistinct()
    ensures forall j, m :: 0 <= j < m < |SavedKeys| ==> SavedKeys[j] != SavedKeys[m]
  {
    forall j, m | 0 <= j < m < |SavedKeys|
      ensures SavedKeys[j] != SavedKeys[m]
    {
      var a, b := SavedKeys[j], SavedKeys[m];
      if |a| == |b| {
        assert a[0] != b[0];
      }
    }
  }

  // ---------------------------------------------------------------------
  // What the key search misreads

  /** A field whose value is the name of a later key `k` hides that key:
      the search for "k" stops inside the value, and the first colon after
      it is the next line's, so extract_json_string returns the next
      line's value instead of the value saved under `k`. */
  lemma ValueNamesKey(pre: string, key: string, k: string, key2: string, e2: string, rest: string)
    requires forall j :: 0 <= j < |pre| ==> pre[j] != '"'
    requires KeyLike(key) && KeyLike(k) && key != k && KeyLike(key2) && Plain(e2)
    ensures JsonString(pre + (Layout(key, k) + (Layout(key2, e2) + rest)), k) == e2
  {
    var L1, L2 := Layout(key, k), Layout(key2, e2);
    var s := pre + (L1 + (L2 + rest));
    var b := |pre| + |L1|;
    assert s == (pre + L1) + (L2 + rest);
    LayoutAt(pre, key, k, L2 + rest);
    LayoutAt(pre + L1, key2, e2, rest);
    LayoutChars(key, k);
    assert s[b - 2] == L1[|L1| - 2] && s[b - 1] == L1[|L1| - 1];
    assert forall j :: 0 <= j < |pre| ==> s[j] == pre[j];
    MisreadAt(s, |pre|, key, k, b, key2, e2);
  }

  lemma MisreadAt(s: string, a: nat, key: string, k: string, b: nat, key2: string, e2: string)
    requires LineAt(s, a, key, k) && LineAt(s, b, key2, e2)
    requires KeyLike(key) && KeyLike(k) && key != k && KeyLike(key2) && Plain(e2)
    requires forall j :: 0 <= j < a ==> s[j] != '"'
    requires b == a + |key| + |k| + 10 && s[b - 2] == ',' && s[b - 1] == '\n'
    ensures JsonString(s, k) == e2
  {
    KeyInValue(s, a, key, k);
    ColonOnNextLine(s, a, key, k, b, key2, e2);
    var v := b + 6 + |key2|;
    TextAt(s, b, key2, e2);
    PlainIsBody(e2, true);
    QuotedValue(s, k, v, v + 1 + |e2|);
  }

  /** The search for "k" stops at the value of a line whose value is `k`,
      when nothing before the line is a quote. */
  lemma KeyInValue(s: string, a: nat, key: string, k: string)
    requires LineAt(s, a, key, k) && KeyLike(key) && KeyLike(k) && key != k
    requires forall j :: 0 <= j < a ==> s[j] != '"'
    ensures Find(s, SearchKey(k), 0) == Some(a + 6 + |key|)
  {
    SearchKeyChars(k);
    var p := a + 6 + |key|;
    NoKeyBeforeValue(s, a, key, k);
    OccursFrom(s, SearchKey(k), p);
    FindFirst(s, SearchKey(k), p);
  }

  lemma NoKeyBeforeValue(s: string, a: nat, key: string, k: string)
    requires LineAt(s, a, key, k) && KeyLike(key) && KeyLike(k) && key != k
    requires forall j :: 0 <= j < a ==> s[j] != '"'
    ensures NoOccBefore(s, SearchKey(k), a + 6 + |key|)
  {
    forall q | 0 <= q < a + 6 + |key|
      ensures !OccursAt(s, SearchKey(k), q)
    {
      NoKeyAtPos(s, a, key, k, q);
    }
  }

  lemma NoKeyAtPos(s: string, a: nat, key: string, k: string, q: nat)
    requires LineAt(s, a, key, k) && KeyLike(key) && KeyLike(k) && key != k
    requires forall j :: 0 <= j < a ==> s[j] != '"'
    requires q < a + 6 + |key|
    ensures !OccursAt(s, SearchKey(k), q)
  {
    SearchKeyChars(k);
    var P := SearchKey(k);
    if q == a + 2 {
      StretchMismatch(s, q, key, k);
    } else if q == a + 3 + |key| {
      Mismatch(s, P, q, 1);
    } else if a + 3 <= q < a + 3 + |key| {
      assert IsKeyChar(key[q - a - 3]);
      Mismatch(s, P, q, 0);
    } else {
      Mismatch(s, P, q, 0);
    }
  }

  /** From a value `k` on one line, the first colon is the one after the
      next line's key, and the value found is that line's. */
  lemma ColonOnNextLine(s: string, a: nat, key: string, k: string, b: nat, key2: string, e2: string)
    requires LineAt(s, a, key, k) && LineAt(s, b, key2, e2) && KeyLike(k) && KeyLike(key2)
    requires b == a + |key| + |k| + 10 && s[b - 2] == ',' && s[b - 1] == '\n'
    requires Find(s, SearchKey(k), 0) == Some(a + 6 + |key|)
    ensures ValueStart(s, k) == Some(b + 6 + |key2|)
  {
    var p := a + 6 + |key|;
    var c := b + 4 + |key2|;
    forall m | p <= m < c
      ensures s[m] != ':'
    {
      if p + 1 <= m < p + 1 + |k| {
        assert IsKeyChar(k[m - p - 1]);
      } else if b + 3 <= m < b + 3 + |key2| {
        assert IsKeyChar(key2[m - b - 3]);
      }
    }
    FindChar(s, ':', p, c);
    assert ":" == [':'];
    assert SkipValueSeps(s, c + 2) == c + 2;
    assert SkipValueSeps(s, c + 1) == c + 2;
    assert SkipValueSeps(s, c) == c + 2;
  }

  /** A record whose version is "mode" saves a file from which "mode"
      reads back as the serial number, whatever the record holds under
      mode. */
  lemma VersionHidesMode(info: DeviceInfo, xs: seq<string>)
    requires info.version == "mode" && Plain(info.serialNumber)
    ensures JsonString(SaveText(info, xs), "mode") == info.serialNumber
  {
    SampleKeys();
    FrontLines(info, xs);
    var rest := FieldLines(Fields(info)[2..]) + ArrayText(ItemLines(xs, 0, |xs|));
    ValueNamesKey("{\n", "version", "mode", "serial_number", info.serialNumber, rest);
  }

  /** The saved text opens with the version and serial number lines. */
  lemma FrontLines(info: DeviceInfo, xs: seq<string>)
    requires Plain(info.version) && Plain(info.serialNumber)
    ensures SaveText(info, xs) ==
              "{\n" + (Layout("version", info.version) + (Layout("serial_number", info.serialNumber) +
                (FieldLines(Fields(info)[2..]) + ArrayText(ItemLines(xs, 0, |xs|)))))
  {
    var A, B := Layout("version", info.version), Layout("serial_number", info.serialNumber);
    var C, R := FieldLines(Fields(info)[2..]), ArrayText(ItemLines(xs, 0, |xs|));
    FieldsFront(info);
    PlainEscape(info.version);
    PlainEscape(info.serialNumber);
    assert SaveText(info, xs) == ("{\n" + (A + (B + C))) + R;
    Assoc("{\n", A + (B + C), R);
    Assoc(A, B + C, R);
    Assoc(B, C, R);
  }

  lemma SampleKeys()
    ensures KeyLike("version") && KeyLike("mode") && KeyLike("serial_number") && Plain("mode")
  {
    SavedKeysLike();
    assert SavedKeys[0] == "version" && SavedKeys[1] == "serial_number" && SavedKeys[8] == "mode";
  }

  /** The same on one concrete record. */
  lemma KeyNameValueMisread()
    ensures var i := EmptyInfo().(version := "mode", serialNumber := "S", mode := "M");
            JsonString(SaveText(i, []), "mode") == "S" != i.mode
  {
    var i := EmptyInfo().(version := "mode", serialNumber := "S", mode := "M");
    VersionHidesMode(i, []);
  }

  /** The first two lines of the field block. */
  lemma FieldsFront(info: DeviceInfo)
    ensures FieldLines(Fields(info)) ==
              FieldLine("version", info.version) + (FieldLine("serial_number", info.serialNumber) + FieldLines(Fields(info)[2..]))
  {
    var ps := Fields(info);
    assert |ps| == 10 && ps[0] == ("version", info.version) && ps[1] == ("serial_number", info.serialNumber);
    LinesCons(ps, "");
    LinesCons(ps[1..], "");
    assert ps[1..][1..] == ps[2..];
  }

  /** For values that need no escaping and are not key names, and
      instances that need no escaping and hold no ']', extracting each
      key from the saved text gives back the saved value, and extracting
      "instances" gives back the instance list. */
  lemma SaveRoundTrip(info: DeviceInfo, xs: seq<string>)
    requires forall j :: 0 <= j < |Fields(info)| ==> SaveableValue(Fields(info)[j].1)
    requires forall j :: 0 <= j < |xs| ==> SaveableInstance(xs[j])
    ensures forall j :: 0 <= j < |Fields(info)| ==> JsonString(SaveText(info, xs), Fields(info)[j].0) == Fields(info)[j].1
    ensures JsonArray(SaveText(info, xs), "instances") == xs
  {
    var ps := Fields(info);
    FieldsShape(info);
    var R := ArrayText(ItemLines(xs, 0, |xs|));
    var text := SaveText(info, xs);
    assert text == "{\n" + FieldLines(ps) + R;
    forall j | 0 <= j < |ps|
      ensures JsonString(text, ps[j].0) == ps[j].1
    {
      FieldLookup("{\n", ps, j, R);
    }
    InstancesRoundTrip(info, xs);
  }

  lemma InstancesRoundTrip(info: DeviceInfo, xs: seq<string>)
    requires forall j :: 0 <= j < |Fields(info)| ==> SaveableValue(Fields(info)[j].1)
    requires forall j :: 0 <= j < |xs| ==> SaveableInstance(xs[j])
    ensures JsonArray(SaveText(info, xs), "instances") == xs
  {
    var ps := Fields(info);
    FieldsShape(info);
    var items := ItemLines(xs, 0, |xs|);
    var pre := "{\n" + FieldLines(ps);
    NoKeyBefore("{\n", ps, ArrayText(items), "instances");
    ArrayRead(pre, xs);
  }

  /** The instance list after a prefix that holds no "instances" reads
      back as the instances. */
  lemma ArrayRead(pre: string, xs: seq<string>)
    requires forall j :: 0 <= j < |xs| ==> SaveableInstance(xs[j])
    requires NoOccBefore(pre + ArrayText(ItemLines(xs, 0, |xs|)), SearchKey("instances"), |pre|)
    ensures JsonArray(pre + ArrayText(ItemLines(xs, 0, |xs|)), "instances") == xs
  {
    ArraySpanOf(pre, xs);
    InstanceContent(xs);
  }

  lemma ArraySpanOf(pre: string, xs: seq<string>)
    requires forall j :: 0 <= j < |xs| ==> SaveableInstance(xs[j])
    requires NoOccBefore(pre + ArrayText(ItemLines(xs, 0, |xs|)), SearchKey("instances"), |pre|)
    ensures JsonArray(pre + ArrayText(ItemLines(xs, 0, |xs|)), "instances") == Elements(ItemsContent(xs), 0)
  {
    var items := ItemLines(xs, 0, |xs|);
    var text := pre + ArrayText(items);
    ItemLinesNoBracket(xs, 0, |xs|);
    var p, b, e := |pre| + 2, |pre| + 15, |pre| + 19 + |items|;
    ArrayAt(text, pre, items, p, b, e);
    ArrayContent(text, "instances", p, b, e);
    assert text[b + 1..e] == ItemsContent(xs);
  }

  lemma ArrayTextChars(items: string)
    ensures var t := ArrayText(items);
            && |t| == |items| + 23
            && t[..17] == InstancesHeader
            && t[17..17 + |items|] == items
            && t[17 + |items|] == ' ' && t[18 + |items|] == ' ' && t[19 + |items|] == ']'
  {
  }

  lemma ArrayTextBody(items: string)
    ensures |ArrayText(items)| == |items| + 23
    ensures ArrayText(items)[16..19 + |items|] == "\n" + items + "  "
  {
    var t := ArrayText(items);
    ArrayTextChars(items);
    assert t[16] == InstancesHeader[16];
    assert t[16..19 + |items|] == [t[16]] + t[17..17 + |items|] + [t[17 + |items|], t[18 + |items|]];
  }

  lemma ShiftChars(pre: string, t: string, lo: nat, hi: nat)
    requires lo <= hi <= |t|
    ensures (pre + t)[|pre| + lo..|pre| + hi] == t[lo..hi]
  {
  }

  /** The instance list after the field lines: the key is found at the
      header, and the brackets enclose the instance lines. */
  lemma ArrayAt(text: string, pre: string, items: string, p: nat, b: nat, e: nat)
    requires text == pre + ArrayText(items)
    requires p == |pre| + 2 && b == |pre| + 15 && e == |pre| + 19 + |items|
    requires ']' !in items
    requires NoOccBefore(text, SearchKey("instances"), |pre|)
    ensures Find(text, SearchKey("instances"), 0) == Some(p)
    ensures p <= b < e < |text| && text[b] == '[' && text[e] == ']'
    ensures forall m :: p <= m < b ==> text[m] != '['
    ensures forall m :: b < m < e ==> text[m] != ']'
    ensures text[b + 1..e] == "\n" + items + "  "
  {
    ArrayKeyAt(text, pre, items);
    ArrayBracketsAt(text, pre, items, p, b, e);
  }

  lemma ArrayKeyAt(text: string, pre: string, items: string)
    requires text == pre + ArrayText(items)
    requires NoOccBefore(text, SearchKey("instances"), |pre|)
    ensures Find(text, SearchKey("instances"), 0) == Some(|pre| + 2)
  {
    ArrayHeaderAt(text, pre, items);
    HeaderChars(text, |pre|);
    KeyAfterIndent(text, |pre|, "instances");
  }

  lemma ArrayBracketsAt(text: string, pre: string, items: string, p: nat, b: nat, e: nat)
    requires text == pre + ArrayText(items)
    requires p == |pre| + 2 && b == |pre| + 15 && e == |pre| + 19 + |items|
    requires ']' !in items
    ensures p <= b < e < |text| && text[b] == '[' && text[e] == ']'
    ensures forall m :: p <= m < b ==> text[m] != '['
    ensures forall m :: b < m < e ==> text[m] != ']'
    ensures text[b + 1..e] == "\n" + items + "  "
  {
    ArrayHeaderAt(text, pre, items);
    ArrayBodyAt(text, pre, items, b, e);
    HeaderChars(text, |pre|);
    BracketBody(text, b + 1, items);
  }

  lemma ArrayHeaderAt(text: string, pre: string, items: string)
    requires text == pre + ArrayText(items)
    ensures |pre| + 17 <= |text| && text[|pre|..|pre| + 17] == InstancesHeader
  {
    ArrayTextChars(items);
    ShiftChars(pre, ArrayText(items), 0, 17);
  }

  lemma ArrayBodyAt(text: string, pre: string, items: string, b: nat, e: nat)
    requires text == pre + ArrayText(items)
    requires b == |pre| + 15 && e == |pre| + 19 + |items|
    ensures e < |text| && text[e] == ']' && text[b + 1..e] == "\n" + items + "  "
  {
    var t := ArrayText(items);
    ArrayTextChars(items);
    ArrayTextBody(items);
    ShiftChars(pre, t, 16, 19 + |items|);
    assert text[e] == t[19 + |items|];
  }

  /** A key quoted at `n + 2`, after two spaces, is found there when
      nothing before matches. */
  lemma KeyAfterIndent(text: string, n: nat, k: string)
    requires n + |k| + 4 <= |text| && text[n] == ' ' && text[n + 1] == ' '
    requires forall t :: 0 <= t < |k| + 2 ==> text[n + 2 + t] == SearchKey(k)[t]
    requires NoOccBefore(text, SearchKey(k), n)
    ensures Find(text, SearchKey(k), 0) == Some(n + 2)
  {
    SearchKeyChars(k);
    var P := SearchKey(k);
    OccursFrom(text, P, n + 2);
    IndentNoOcc(text, P, n);
    FindFirst(text, P, n + 2);
  }

  /** Two spaces hold no start of a quoted pattern. */
  lemma IndentNoOcc(text: string, P: string, n: nat)
    requires n + 2 <= |text| && text[n] == ' ' && text[n + 1] == ' '
    requires P != [] && P[0] == '"'
    requires NoOccBefore(text, P, n)
    ensures NoOccBefore(text, P, n + 2)
  {
    Mismatch(text, P, n, 0);
    NoOccExtend(text, P, n);
    Mismatch(text, P, n + 1, 0);
    NoOccExtend(text, P, n + 1);
  }

  lemma HeaderChars(text: string, n: nat)
    requires n + 17 <= |text| && text[n..n + 17] == InstancesHeader
    ensures text[n] == ' ' && text[n + 1] == ' '
    ensures forall t :: 0 <= t < 11 ==> text[n + 2 + t] == SearchKey("instances")[t]
    ensures text[n + 15] == '[' && forall m :: n + 2 <= m < n + 15 ==> text[m] != '['
  {
    assert forall m :: n <= m < n + 17 ==> text[m] == InstancesHeader[m - n];
  }

  /** A newline, bracket-free items and two spaces hold no ']'. */
  lemma BracketBody(text: string, i: nat, items: string)
    requires ']' !in items
    requires i + |items| + 3 <= |text| && text[i..i + |items| + 3] == "\n" + items + "  "
    ensures forall m :: i <= m < i + |items| + 3 ==> text[m] != ']'
  {
    var c := text[i..i + |items| + 3];
    forall m | i <= m < i + |items| + 3
      ensures text[m] != ']'
    {
      assert text[m] == c[m - i];
      if 1 <= m - i < 1 + |items| {
        assert c[m - i] == items[m - i - 1];
        assert items[m - i - 1] in items;
      }
    }
  }

  /** Reading the saved file back through the file layer of the loader
      restores each of the ten fields that was non-empty. */
  lemma SavedFieldsReload(d: DeviceInfo, info: DeviceInfo, xs: seq<string>, f: Field)
    requires forall j :: 0 <= j < |Fields(info)| ==> SaveableValue(Fields(info)[j].1)
    requires forall j :: 0 <= j < |xs| ==> SaveableInstance(xs[j])
    ensures Get(FileOverlay(d, SaveText(info, xs)), f) ==
              if FileKey(f).Some? && Get(info, f) != "" then Get(info, f) else Get(d, f)
  {
    var text := SaveText(info, xs);
    SaveRoundTrip(info, xs);
    FileOverlayField(d, text, f);
    if FileKey(f).Some? {
      FieldOfKey(text, info, f);
    }
  }

  /** A text from which every saved key extracts its value yields each
      field under its file key. */
  lemma FieldOfKey(text: string, info: DeviceInfo, f: Field)
    requires forall j :: 0 <= j < |Fields(info)| ==> JsonString(text, Fields(info)[j].0) == Fields(info)[j].1
    requires FileKey(f).Some?
    ensures JsonString(text, FileKey(f).value) == Get(info, f)
  {
    var ps := Fields(info);
    var j := match f
      case Version => 0
      case SerialNumber => 1
      case ModelType => 2
      case DeviceType => 3
      case HardwareRevision => 4
      case ProductionDate => 5
      case WarrantyPeriod => 6
      case BuildDate => 7
      case Mode => 8
      case _ => 9;
    assert ps[j] == (FileKey(f).value, Get(info, f));
  }
}
