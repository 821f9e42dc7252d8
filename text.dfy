/** Character-level helpers shared by the scanners: the two library
    operations the source leans on (std::string::find and the
    find_first_not_of / find_last_not_of trimming idiom) as functions
    with their defining properties. */
module Text {

  datatype Option<+T> = None | Some(value: T)

  /** True when `pat` occurs in `s` starting at index `j`. */
  predicate OccursAt(s: string, pat: string, j: nat) {
    j + |pat| <= |s| && s[j..j + |pat|] == pat
  }

  /** std::string::find(pat, from): the first occurrence at or after
      `from`, or None for npos. */
  function Find(s: string, pat: string, from: nat): (r: Option<nat>)
    decreases |s| - from
    ensures r.Some? ==> from <= r.value && OccursAt(s, pat, r.value)
    ensures r.Some? ==> forall j :: from <= j < r.value ==> !OccursAt(s, pat, j)
    ensures r.None? ==> forall j :: from <= j ==> !OccursAt(s, pat, j)
  {
    if from + |pat| > |s| then None
    else if s[from..from + |pat|] == pat then Some(from)
    else Find(s, pat, from + 1)
  }

  /** The two characters the trimming code strips. */
  predicate IsBlank(c: char) {
    c == ' ' || c == '\t'
  }

  /** find_first_not_of(" \t", i): the first non-blank at or after `i`,
      or |s| for npos. */
  function FirstNonBlank(s: string, i: nat): (r: nat)
    requires i <= |s|
    decreases |s| - i
    ensures i <= r <= |s|
    ensures forall k :: i <= k < r ==> IsBlank(s[k])
    ensures r == |s| || !IsBlank(s[r])
  {
    if i == |s| || !IsBlank(s[i]) then i else FirstNonBlank(s, i + 1)
  }

  /** find_last_not_of(" \t") + 1, searching below `j`: one past the last
      non-blank, or 0 when there is none (npos + 1 wraps to 0). */
  function LastNonBlank(s: string, j: nat): (r: nat)
    requires j <= |s|
    decreases j
    ensures r <= j
    ensures forall k :: r <= k < j ==> IsBlank(s[k])
    ensures r == 0 || !IsBlank(s[r - 1])
  {
    if j == 0 || !IsBlank(s[j - 1]) then j else LastNonBlank(s, j - 1)
  }

  /** value.erase(0, value.find_first_not_of(" \t")): erasing up to npos
      clears an all-blank value. */
  function TrimLeft(s: string): string {
    s[FirstNonBlank(s, 0)..]
  }

  /** value.erase(value.find_last_not_of(" \t") + 1) */
  function TrimRight(s: string): string {
    s[..LastNonBlank(s, |s|)]
  }

  /** Both erase calls in the order the source makes them. */
  function Trim(s: string): string {
    TrimRight(TrimLeft(s))
  }

  /** Trim removes exactly the leading and trailing blanks: the result is
      a slice of the input with blanks only outside it and no blank at
      either end. */
  lemma TrimIsSlice(s: string)
    ensures var i := FirstNonBlank(s, 0);
            var j := i + |Trim(s)|;
            && j <= |s| && Trim(s) == s[i..j]
            && (forall k :: 0 <= k < i ==> IsBlank(s[k]))
            && (forall k :: j <= k < |s| ==> IsBlank(s[k]))
            && (i < j ==> !IsBlank(s[i]) && !IsBlank(s[j - 1]))
  {
    var i := FirstNonBlank(s, 0);
    var l := s[i..];
    var m := LastNonBlank(l, |l|);
    forall k | i + m <= k < |s|
      ensures IsBlank(s[k])
    {
      assert s[k] == l[k - i];
    }
    if m > 0 {
      assert s[i + m - 1] == l[m - 1];
    }
  }

  /** The trimmed text has no blank at either end. */
  lemma TrimEnds(s: string)
    ensures Trim(s) == [] || (!IsBlank(Trim(s)[0]) && !IsBlank(Trim(s)[|Trim(s)| - 1]))
  {
    TrimIsSlice(s);
  }

  /** A string without blanks at either end is its own trimming, and an
      all-blank string trims to the empty string. */
  lemma TrimFixed(s: string)
    requires s == [] || (!IsBlank(s[0]) && !IsBlank(s[|s| - 1]))
    ensures Trim(s) == s
  {
    assert TrimLeft(s) == s;
  }

  lemma TrimAllBlank(s: string)
    requires forall k :: 0 <= k < |s| ==> IsBlank(s[k])
    ensures Trim(s) == []
  {
  }

  /** The `if (!v.empty()) field = v;` idiom: a value overwrites only when
      it is non-empty. */
  function NonEmptyOr(v: string, fallback: string): (r: string)
    ensures r == v || (v == "" && r == fallback)
    ensures r == "" ==> v == "" && fallback == ""
  {
    if v != "" then v else fallback
  }

  lemma Assoc(a: string, b: string, c: string)
    ensures (a + b) + c == a + (b + c)
  {
  }

  /** Dropping the last character of a concatenation drops it from its
      second part. */
  lemma DropLastConcat(a: string, b: string)
    requires b != []
    ensures (a + b)[..|a + b| - 1] == a + b[..|b| - 1]
  {
  }
}
