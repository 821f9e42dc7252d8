/** The Basic authentication check of the registration endpoint
    (check_basic_auth_impl in src/main.cpp): the "Basic " scheme of
    RFC 7617, a lenient decoder for the base64 alphabet of section 4 of
    RFC 4648, and the split of the decoded "user-id:password" at its
    first colon (section 2 of RFC 7617).  Decoded bytes are characters
    below 256. */
module BasicAuth {
  import opened Text

  const Prefix: string := "Basic "
  /** The character of each sextet value: 'A'-'Z', 'a'-'z', '0'-'9',
      '+', '/'. */
  function Digit(d: nat): char
    requires d < 64
  {
    if d < 26 then ('A' as int + d) as char
    else if d < 52 then ('a' as int + d - 26) as char
    else if d < 62 then ('0' as int + d - 52) as char
    else if d == 62 then '+' else '/'
  }

  /** The base64 alphabet of section 4 of RFC 4648. */
  function Alphabet(): (r: string)
    ensures |r| == 64 && forall d :: 0 <= d < 64 ==> r[d] == Digit(d)
  {
    seq(64, d requires 0 <= d < 64 => Digit(d))
  }

  /** A string of bytes. */
  predicate IsBytes(s: string) {
    forall k :: 0 <= k < |s| ==> s[k] as int < 256
  }

  function Pow2(n: nat): (r: nat)
    ensures r >= 1
  {
    if n == 0 then 1 else 2 * Pow2(n - 1)
  }

  // ---------------------------------------------------------------------
  // Removing the blanks (the erase-remove idiom on the payload)

  /** `s` with every `c` removed, the rest in order. */
  function Without(s: string, c: char): string
    decreases |s|
  {
    if s == [] then []
    else Without(s[..|s| - 1], c) + (if s[|s| - 1] == c then [] else [s[|s| - 1]])
  }

  /** std::remove followed by erase, in place: the first `m` cells hold
      the first `n` cells without `c`. */
  method Erase(a: array<char>, n: nat, c: char) returns (m: nat)
    requires n <= a.Length
    modifies a
    ensures m <= n
    ensures a[..m] == Without(old(a[..n]), c)
  {
    m := 0;
    for r := 0 to n
      invariant m <= r
      invariant a[..m] == Without(old(a[..r]), c)
      invariant a[r..] == old(a[r..])
    {
      var x := a[r];
      assert x == old(a[r]);
      assert old(a[..r + 1])[..r] == old(a[..r]);
      assert a[r + 1..] == old(a[r + 1..]);
      WithoutSnoc(old(a[..r + 1]), c);
      if x != c {
        ghost var done, later := a[..m], a[r + 1..];
        a[m] := x;
        assert a[..m + 1] == done + [x];
        assert a[r + 1..] == later;
        m := m + 1;
      }
      assert a[..m] == Without(old(a[..r + 1]), c);
    }
    assert old(a[..n]) == old(a[..n]);
  }

  /** The payload without spaces, newlines and carriage returns. */
  function Stripped(e: string): string {
    Without(Without(Without(e, ' '), '\n'), '\r')
  }

  /** Removing `c` removes every `c` and keeps every other character as
      often as it occurred. */
  lemma {:induction false} WithoutCounts(s: string, c: char)
    decreases |s|
    ensures c !in Without(s, c)
    ensures forall x :: x != c ==> multiset(Without(s, c))[x] == multiset(s)[x]
  {
    if s != [] {
      WithoutCounts(s[..|s| - 1], c);
      MultisetSnoc(s);
    }
  }

  lemma WithoutSnoc(s: string, c: char)
    requires s != []
    ensures Without(s, c) == Without(s[..|s| - 1], c) + (if s[|s| - 1] == c then [] else [s[|s| - 1]])
  {
  }

  lemma MultisetSnoc(s: string)
    requires s != []
    ensures multiset(s) == multiset(s[..|s| - 1]) + multiset{s[|s| - 1]}
  {
    TakeLast(s);
  }

  lemma TakeLast(s: string)
    requires s != []
    ensures s[..|s| - 1] + [s[|s| - 1]] == s
  {
  }

  /** A string without `c` is left as it is. */
  lemma {:induction false} WithoutAbsent(s: string, c: char)
    requires c !in s
    decreases |s|
    ensures Without(s, c) == s
  {
    if s != [] {
      var t, x := s[..|s| - 1], s[|s| - 1];
      assert forall k :: 0 <= k < |t| ==> t[k] == s[k];
      WithoutAbsent(t, c);
      assert s == t + [x];
    }
  }

  /** The stripped payload has no blanks, and a payload without blanks is
      not changed. */
  lemma StrippedBlankFree(e: string)
    ensures ' ' !in Stripped(e) && '\n' !in Stripped(e) && '\r' !in Stripped(e)
    ensures ' ' !in e && '\n' !in e && '\r' !in e ==> Stripped(e) == e
  {
    var a := Without(e, ' ');
    var b := Without(a, '\n');
    WithoutCounts(e, ' ');
    WithoutCounts(a, '\n');
    WithoutCounts(b, '\r');
    assert multiset(b)[' '] == multiset(a)[' '] == 0;
    assert multiset(Stripped(e))[' '] == 0 && multiset(Stripped(e))['\n'] == 0;
    if ' ' !in e && '\n' !in e && '\r' !in e {
      WithoutAbsent(e, ' ');
      WithoutAbsent(e, '\n');
      WithoutAbsent(e, '\r');
    }
  }

  // ---------------------------------------------------------------------
  // Bits

  /** The value of bits, most significant first. */
  function Value(b: seq<bool>): nat
    decreases |b|
  {
    if b == [] then 0 else 2 * Value(b[..|b| - 1]) + (if b[|b| - 1] then 1 else 0)
  }

  /** The `w` low bits of `v`, most significant first. */
  function Width(v: nat, w: nat): (r: seq<bool>)
    decreases w
    ensures |r| == w
  {
    if w == 0 then [] else Width(v / 2, w - 1) + [v % 2 == 1]
  }

  lemma {:induction false} ValueBound(b: seq<bool>)
    decreases |b|
    ensures Value(b) < Pow2(|b|)
  {
    if b != [] {
      ValueBound(b[..|b| - 1]);
    }
  }

  lemma {:induction false} ValueWidth(v: nat, w: nat)
    requires v < Pow2(w)
    decreases w
    ensures Value(Width(v, w)) == v
  {
    if w > 0 {
      ValueWidth(v / 2, w - 1);
      var r := Width(v, w);
      assert r[..w - 1] == Width(v / 2, w - 1);
    }
  }

  lemma {:induction false} WidthValue(b: seq<bool>)
    decreases |b|
    ensures Width(Value(b), |b|) == b
  {
    if b != [] {
      var t := b[..|b| - 1];
      WidthValue(t);
      assert b == t + [b[|b| - 1]];
    }
  }

  lemma {:induction false} ValueAppend(a: seq<bool>, b: seq<bool>)
    decreases |b|
    ensures Value(a + b) == Value(a) * Pow2(|b|) + Value(b)
  {
    if b == [] {
      assert a + b == a;
    } else {
      var t := b[..|b| - 1];
      ValueAppend(a, t);
      assert (a + b)[..|a + b| - 1] == a + t;
      assert (a + b)[|a + b| - 1] == b[|b| - 1];
      Distribute(Value(a), Pow2(|t|), Value(t), if b[|b| - 1] then 1 else 0);
    }
  }

  lemma Distribute(v: int, p: int, w: int, bit: int)
    ensures 2 * (v * p + w) + bit == v * (2 * p) + (2 * w + bit)
  {
  }

  /** Whole division by a power of two splits a concatenation. */
  lemma SplitValue(a: seq<bool>, b: seq<bool>)
    ensures Value(a + b) / Pow2(|b|) == Value(a)
    ensures Value(a + b) % Pow2(|b|) == Value(b)
  {
    ValueAppend(a, b);
    ValueBound(b);
    DivMod(Value(a), Pow2(|b|), Value(b));
  }

  lemma DivMod(q: nat, m: nat, r: nat)
    requires r < m
    ensures (q * m + r) / m == q && (q * m + r) % m == r
  {
    var x := q * m + r;
    var q1, r1 := x / m, x % m;
    assert q1 * m + r1 == q * m + r;
    MulAtLeast(q1 - q, m);
    MulAtLeast(q - q1, m);
    assert (q1 - q) * m == q1 * m - q * m;
    assert (q - q1) * m == q * m - q1 * m;
  }

  lemma MulAtLeast(d: int, m: int)
    ensures d >= 1 && m > 0 ==> d * m >= m
  {
  }

  // ---------------------------------------------------------------------
  // The decoder

  /** `chars.find(c)`: the position of `c` in the alphabet. */
  function Index(c: char): (r: Option<nat>)
    ensures r.Some? ==> r.value < 64
  {
    if 'A' <= c <= 'Z' then Some(c as nat - 'A' as nat)
    else if 'a' <= c <= 'z' then Some(c as nat - 'a' as nat + 26)
    else if '0' <= c <= '9' then Some(c as nat - '0' as nat + 52)
    else if c == '+' then Some(62)
    else if c == '/' then Some(63)
    else None
  }

  /** Index is the position in the alphabet: every alphabet character
      is found at its own position, and a found character is that
      alphabet character. */
  lemma AlphabetIndex()
    ensures forall d :: 0 <= d < 64 ==> Index(Alphabet()[d]) == Some(d)
    ensures forall c :: Index(c).Some? ==> Alphabet()[Index(c).value] == c
  {
    forall d | 0 <= d < 64
      ensures Index(Alphabet()[d]) == Some(d)
    {
      DigitIndex(d);
    }
    forall c | Index(c).Some?
      ensures Alphabet()[Index(c).value] == c
    {
      IndexDigit(c);
    }
  }

  lemma DigitIndex(d: nat)
    requires d < 64
    ensures Index(Digit(d)) == Some(d)
  {
    var c := Digit(d);
    assert c as int == if d < 26 then 'A' as int + d else if d < 52 then 'a' as int + d - 26
                       else if d < 62 then '0' as int + d - 52 else if d == 62 then '+' as int else '/' as int;
  }

  lemma IndexDigit(c: char)
    requires Index(c).Some?
    ensures Digit(Index(c).value) == c
  {
    var d := Index(c).value;
    assert Digit(d) as int == c as int;
  }

  /** The alphabet is the 64 characters of the decoder's string, written
      here in its four runs. */
  lemma AlphabetText()
    ensures Alphabet() == "ABCDEFGHIJKLMNOPQRSTUVWXYZ" + "abcdefghijklmnopqrstuvwxyz" + "0123456789" + "+/"
  {
    AlphabetRanges();
    RangeText();
  }

  lemma AlphabetRanges()
    ensures Alphabet() == Range('A', 26) + Range('a', 26) + Range('0', 10) + "+/"
  {
    RangeAt('A', 26);
    RangeAt('a', 26);
    RangeAt('0', 10);
    FourRuns(Range('A', 26), Range('a', 26), Range('0', 10));
  }

  /** The alphabet is its three runs of letters and digits, then '+'
      and '/'. */
  lemma FourRuns(u: string, l: string, n: string)
    requires |u| == 26 && forall k :: 0 <= k < 26 ==> u[k] == ('A' as int + k) as char
    requires |l| == 26 && forall k :: 0 <= k < 26 ==> l[k] == ('a' as int + k) as char
    requires |n| == 10 && forall k :: 0 <= k < 10 ==> n[k] == ('0' as int + k) as char
    ensures Alphabet() == u + l + n + "+/"
  {
    var r := u + l + n + "+/";
    forall k | 0 <= k < 64
      ensures r[k] == Alphabet()[k]
    {
      if k < 26 {
        assert r[k] == u[k];
      } else if k < 52 {
        assert r[k] == l[k - 26];
      } else if k < 62 {
        assert r[k] == n[k - 52];
      }
    }
  }

  lemma RangeText()
    ensures Range('A', 26) == "ABCDEFGHIJKLMNOPQRSTUVWXYZ"
    ensures Range('a', 26) == "abcdefghijklmnopqrstuvwxyz"
    ensures Range('0', 10) == "0123456789"
  {
    UpperText();
    LowerText();
    assert Range('0', 5) == "01234";
  }

  lemma UpperText()
    ensures Range('A', 26) == "ABCDEFGHIJKLMNOPQRSTUVWXYZ"
  {
    assert Range('A', 7) == "ABCDEFG";
    assert Range('A', 13) == "ABCDEFGHIJKLM";
    assert Range('A', 20) == "ABCDEFGHIJKLMNOPQRST";
  }

  lemma LowerText()
    ensures Range('a', 26) == "abcdefghijklmnopqrstuvwxyz"
  {
    assert Range('a', 7) == "abcdefg";
    assert Range('a', 13) == "abcdefghijklm";
    assert Range('a', 20) == "abcdefghijklmnopqrst";
  }

  /** The `n` consecutive characters from `lo` on. */
  function Range(lo: char, n: nat): (r: string)
    requires lo as int + n <= 128
    ensures |r| == n
  {
    if n == 0 then [] else Range(lo, n - 1) + [(lo as int + n - 1) as char]
  }

  lemma {:induction false} RangeAt(lo: char, n: nat)
    requires lo as int + n <= 128
    ensures forall k :: 0 <= k < n ==> Range(lo, n)[k] == (lo as int + k) as char
  {
    if n > 0 {
      RangeAt(lo, n - 1);
    }
  }

  /** The positions of the accepted characters, in order; characters
      outside the alphabet are skipped. */
  function Accepted(s: string): (r: seq<nat>)
    decreases |s|
    ensures forall k :: 0 <= k < |r| ==> r[k] < 64
  {
    if s == [] then []
    else
      Accepted(s[..|s| - 1]) +
      (match Index(s[|s| - 1]) case None => [] case Some(d) => [d])
  }

  /** The text before the first '='. */
  function BeforePad(s: string): string {
    match Find(s, "=", 0)
    case None => s
    case Some(k) => s[..k]
  }

  /** The sextets the decoder consumes. */
  function Sextets(s: string): (r: seq<nat>)
    ensures forall k :: 0 <= k < |r| ==> r[k] < 64
  {
    Accepted(BeforePad(s))
  }

  /** The bits of the sextets, six per sextet. */
  function Bits(ds: seq<nat>): (r: seq<bool>)
    requires forall k :: 0 <= k < |ds| ==> ds[k] < 64
    decreases |ds|
    ensures |r| == 6 * |ds|
  {
    if ds == [] then [] else Bits(ds[..|ds| - 1]) + Width(ds[|ds| - 1], 6)
  }

  /** The whole bytes in a bit string, eight bits each; fewer than eight
      trailing bits are dropped. */
  function Bytes(b: seq<bool>): (r: string)
    decreases |b|
    ensures |r| == |b| / 8
    ensures IsBytes(r)
  {
    if |b| < 8 then []
    else
      ValueBound(b[..8]);
      [Value(b[..8]) as char] + Bytes(b[8..])
  }

  /** What the decoding loop produces. */
  function Decoded(e: string): string {
    Bytes(Bits(Sextets(e)))
  }

  lemma {:induction false} BytesConcat(x: seq<bool>, y: seq<bool>, k: nat)
    requires |x| == 8 * k
    decreases k
    ensures Bytes(x + y) == Bytes(x) + Bytes(y)
  {
    if k == 0 {
      assert x + y == y;
    } else {
      assert (x + y)[..8] == x[..8];
      assert (x + y)[8..] == x[8..] + y;
      BytesConcat(x[8..], y, k - 1);
      ValueBound(x[..8]);
      var c := [Value(x[..8]) as char];
      assert Bytes(x + y) == c + (Bytes(x[8..]) + Bytes(y));
      assert c + (Bytes(x[8..]) + Bytes(y)) == (c + Bytes(x[8..])) + Bytes(y);
    }
  }

  /** The decoder's state after the sextets whose bits are `bits`: the
      bytes so far are those of `consumed`, and `val` holds the `valb + 8`
      bits of `left` that have not yet left as a byte.  Between two
      sextets fewer than eight bits are pending (`valb < 0`). */
  ghost predicate Held(bits: seq<bool>, decoded: string, val: int, valb: int, consumed: seq<bool>, left: seq<bool>) {
    && -8 <= valb < 6 && |left| == valb + 8
    && bits == consumed + left
    && |consumed| == 8 * |decoded| && decoded == Bytes(consumed)
    && val == Value(left)
  }

  ghost predicate Pending(bits: seq<bool>, decoded: string, val: int, valb: int, consumed: seq<bool>, left: seq<bool>) {
    Held(bits, decoded, val, valb, consumed, left) && valb < 0
  }

  /** One sextet is shifted into the accumulator. */
  lemma ShiftIn(bits: seq<bool>, decoded: string, val: int, valb: int, consumed: seq<bool>, left: seq<bool>, d: nat)
    requires Pending(bits, decoded, val, valb, consumed, left) && d < 64
    ensures Held(bits + Width(d, 6), decoded, val * 64 + d, valb + 6, consumed, left + Width(d, 6))
  {
    AppendSextet(left, d);
    assert bits + Width(d, 6) == consumed + (left + Width(d, 6));
  }

  lemma AppendSextet(left: seq<bool>, d: nat)
    requires d < 64
    ensures Value(left + Width(d, 6)) == Value(left) * 64 + d
  {
    assert Pow2(6) == 64;
    ValueWidth(d, 6);
    ValueAppend(left, Width(d, 6));
  }

  /** Eight pending bits or more: the top eight leave as a byte. */
  lemma Emit(bits: seq<bool>, decoded: string, val: int, valb: nat, consumed: seq<bool>, left: seq<bool>)
    requires Held(bits, decoded, val, valb, consumed, left)
    ensures Pending(bits, decoded + [((val / Pow2(valb)) % 256) as char], val % Pow2(valb), valb - 8,
                    consumed + left[..8], left[8..])
  {
    ShiftOut(left, val);
    var hi := left[..8];
    AppendByte(consumed, hi, decoded);
    assert (val / Pow2(valb)) % 256 == Value(hi);
    assert bits == (consumed + hi) + left[8..];
  }

  /** With eight or more bits pending, the top eight are the quotient by
      the power of two of the rest, and the rest the remainder. */
  lemma ShiftOut(left1: seq<bool>, val1: int)
    requires 8 <= |left1| && val1 == Value(left1)
    ensures val1 / Pow2(|left1| - 8) == Value(left1[..8])
    ensures val1 % Pow2(|left1| - 8) == Value(left1[8..])
  {
    var hi, lo := left1[..8], left1[8..];
    assert left1 == hi + lo;
    SplitValue(hi, lo);
  }

  lemma AppendByte(consumed: seq<bool>, hi: seq<bool>, decoded: string)
    requires |hi| == 8 && decoded == Bytes(consumed) && |consumed| == 8 * |decoded|
    ensures Value(hi) < 256 && Bytes(consumed + hi) == decoded + [Value(hi) as char]
  {
    BytesConcat(consumed, hi, |decoded|);
    BytesAtEight(hi);
  }

  lemma BytesAtEight(b: seq<bool>)
    requires |b| == 8
    ensures Value(b) < 256 && Bytes(b) == [Value(b) as char]
  {
    ValueBound(b);
    assert b[..8] == b && b[8..] == [];
  }

  /** One more character of the payload adds its sextet, if it has one,
      and a character other than '=' keeps the prefix free of padding. */
  lemma AcceptStep(e: string, i: nat)
    requires i < |e| && e[i] != '=' && '=' !in e[..i]
    ensures '=' !in e[..i + 1]
    ensures Index(e[i]).None? ==> Bits(Accepted(e[..i + 1])) == Bits(Accepted(e[..i]))
    ensures Index(e[i]).Some? ==>
              Bits(Accepted(e[..i + 1])) == Bits(Accepted(e[..i])) + Width(Index(e[i]).value, 6)
  {
    var s := e[..i + 1];
    assert s == e[..i] + [e[i]];
    assert s[..|s| - 1] == e[..i] && s[|s| - 1] == e[i];
    var ds := Accepted(e[..i]);
    match Index(e[i])
    case None =>
      assert Accepted(s) == ds + [];
      assert ds + [] == ds;
    case Some(d) =>
      var ds' := ds + [d];
      assert ds'[..|ds'| - 1] == ds;
  }

  /** The decoding loop over the payload held in the first `n` cells of
      `a`.  `val` keeps only the bits that can still reach a byte. */
  method DecodeBase64(a: array<char>, n: nat) returns (decoded: string)
    requires n <= a.Length
    ensures decoded == Decoded(a[..n])
  {
    ghost var e := a[..n];
    decoded := [];
    var val := 0;
    var valb := -8;
    ghost var consumed: seq<bool> := [];
    ghost var left: seq<bool> := [];
    var i := 0;
    ghost var bits: seq<bool> := [];
    while i < n
      invariant i <= n
      invariant '=' !in e[..i]
      invariant bits == Bits(Accepted(e[..i]))
      invariant Pending(bits, decoded, val, valb, consumed, left)
    {
      var c := a[i];
      assert c == e[i];
      if c == '=' {
        PadFound(e, i);
        break;
      }
      decoded, val, valb, bits, consumed, left := Accept(e, i, c, decoded, val, valb, bits, consumed, left);
      i := i + 1;
    }
    if i == n {
      assert e[..n] == e;
      NoPad(e);
    }
    Drained(e, i, bits, decoded, val, valb, consumed, left);
  }

  /** Once the loop stops at the padding or at the end, fewer than eight
      bits are pending, and they give no byte. */
  lemma Drained(e: string, i: nat, bits: seq<bool>, decoded: string, val: int, valb: int,
                consumed: seq<bool>, left: seq<bool>)
    requires i <= |e| && BeforePad(e) == e[..i] && bits == Bits(Accepted(e[..i]))
    requires Pending(bits, decoded, val, valb, consumed, left)
    ensures decoded == Decoded(e)
  {
    BytesConcat(consumed, left, |decoded|);
    assert Bytes(left) == [];
  }

  /** One character of the payload other than '=': a character of the
      alphabet adds its sextet, any other is skipped. */
  method Accept(ghost e: string, ghost i: nat, c: char, decoded: string, val: int, valb: int,
                ghost bits: seq<bool>, ghost consumed: seq<bool>, ghost left: seq<bool>)
    returns (decoded1: string, val1: int, valb1: int,
             ghost bits1: seq<bool>, ghost consumed1: seq<bool>, ghost left1: seq<bool>)
    requires i < |e| && c == e[i] && c != '=' && '=' !in e[..i]
    requires bits == Bits(Accepted(e[..i])) && Pending(bits, decoded, val, valb, consumed, left)
    ensures '=' !in e[..i + 1]
    ensures bits1 == Bits(Accepted(e[..i + 1])) && Pending(bits1, decoded1, val1, valb1, consumed1, left1)
  {
    AcceptStep(e, i);
    var idx := Index(c);
    if idx.Some? {
      decoded1, val1, valb1, consumed1, left1 := Absorb(idx.value, decoded, val, valb, bits, consumed, left);
      bits1 := bits + Width(idx.value, 6);
    } else {
      decoded1, val1, valb1, bits1, consumed1, left1 := decoded, val, valb, bits, consumed, left;
    }
  }

  /** One sextet enters the accumulator; once eight bits are pending,
      the top eight leave as a byte. */
  method Absorb(d: nat, decoded: string, val: int, valb: int,
                ghost bits: seq<bool>, ghost consumed: seq<bool>, ghost left: seq<bool>)
    returns (decoded1: string, val1: int, valb1: int, ghost consumed1: seq<bool>, ghost left1: seq<bool>)
    requires d < 64 && Pending(bits, decoded, val, valb, consumed, left)
    ensures Pending(bits + Width(d, 6), decoded1, val1, valb1, consumed1, left1)
  {
    ShiftIn(bits, decoded, val, valb, consumed, left, d);
    decoded1, val1, valb1 := decoded, val * 64 + d, valb + 6;
    consumed1, left1 := consumed, left + Width(d, 6);
    if valb1 >= 0 {
      Emit(bits + Width(d, 6), decoded1, val1, valb1, consumed1, left1);
      decoded1 := decoded1 + [((val1 / Pow2(valb1)) % 256) as char];
      val1 := val1 % Pow2(valb1);
      valb1 := valb1 - 8;
      consumed1 := consumed1 + left1[..8];
      left1 := left1[8..];
    }
  }

  lemma PadFound(e: string, i: nat)
    requires i < |e| && e[i] == '=' && '=' !in e[..i]
    ensures BeforePad(e) == e[..i]
  {
    assert OccursAt(e, "=", i);
    forall j | 0 <= j < i
      ensures !OccursAt(e, "=", j)
    {
      assert e[..i][j] == e[j];
    }
  }

  lemma NoPad(e: string)
    requires '=' !in e
    ensures BeforePad(e) == e
  {
    forall j | 0 <= j
      ensures !OccursAt(e, "=", j)
    {
      if j < |e| {
        assert e[j] in e;
      }
    }
  }

  // ---------------------------------------------------------------------
  // The check

  /** The decoded text names the expected user and password: the part
      before its first colon is the user, the rest the password. */
  function Credentials(decoded: string, user: string, pass: string): bool {
    match Find(decoded, ":", 0)
    case None => false
    case Some(p) => decoded[..p] == user && decoded[p + 1..] == pass
  }

  /** check_basic_auth_impl on the Authorization header (empty when the
      request has none). */
  function Authorized(header: string, user: string, pass: string): bool {
    if header == [] then false
    else
      match Find(header, Prefix, 0)
      case None => false
      case Some(k) =>
        if k != 0 then false
        else Credentials(Decoded(Stripped(header[6..])), user, pass)
  }

  /** The payload is copied into a buffer, spaces, newlines and carriage
      returns are erased from it, and the rest is decoded. */
  method Payload(encoded: string) returns (decoded: string)
    ensures decoded == Decoded(Stripped(encoded))
  {
    var a := new char[|encoded|](j requires 0 <= j < |encoded| => encoded[j]);
    assert a[..a.Length] == encoded;
    var n1 := Erase(a, a.Length, ' ');
    assert a[..n1] == Without(encoded, ' ');
    var n2 := Erase(a, n1, '\n');
    assert a[..n2] == Without(Without(encoded, ' '), '\n');
    var n3 := Erase(a, n2, '\r');
    assert a[..n3] == Stripped(encoded);
    decoded := DecodeBase64(a, n3);
  }

  method CheckBasicAuth(header: string, user: string, pass: string) returns (ok: bool)
    ensures ok == Authorized(header, user, pass)
  {
    if header == [] {
      return false;
    }
    var k := Find(header, Prefix, 0);
    if k != Some(0) {
      return false;
    }
    var decoded := Payload(header[6..]);
    var colon := Find(decoded, ":", 0);
    if colon.None? {
      return false;
    }
    var p := colon.value;
    ok := decoded[..p] == user && decoded[p + 1..] == pass;
  }

  // ---------------------------------------------------------------------
  // Properties

  /** Without the "Basic " scheme at the start of the header (in
      particular without a header) the request is refused. */
  lemma RefusedWithoutScheme(header: string, user: string, pass: string)
    requires !OccursAt(header, Prefix, 0)
    ensures !Authorized(header, user, pass)
  {
  }

  /** The credentials match exactly when the user-id has no colon and the
      decoded text is the user-id, a colon and the password (which may
      hold colons itself). */
  lemma CredentialsIff(decoded: string, user: string, pass: string)
    ensures Credentials(decoded, user, pass) <==> ':' !in user && decoded == user + ":" + pass
  {
    if ':' !in user && decoded == user + ":" + pass {
      ColonFirst(decoded, user, pass);
      assert decoded[..|user|] == user;
      assert decoded[|user| + 1..] == pass;
    }
    if Credentials(decoded, user, pass) {
      ColonSplit(decoded, user, pass);
    }
  }

  /** The colon after a colon-free user-id is the first one. */
  lemma ColonFirst(decoded: string, user: string, pass: string)
    requires ':' !in user && decoded == user + ":" + pass
    ensures Find(decoded, ":", 0) == Some(|user|)
  {
    assert OccursAt(decoded, ":", |user|);
    forall j | 0 <= j < |user|
      ensures !OccursAt(decoded, ":", j)
    {
      assert decoded[j] == user[j];
    }
  }

  /** Accepted credentials are the user-id, a colon and the password. */
  lemma ColonSplit(decoded: string, user: string, pass: string)
    requires Credentials(decoded, user, pass)
    ensures ':' !in user && decoded == user + ":" + pass
  {
    var p := Find(decoded, ":", 0).value;
    assert decoded[p..p + 1] == ":";
    forall j | 0 <= j < |user|
      ensures user[j] != ':'
    {
      assert !OccursAt(decoded, ":", j);
      assert decoded[j..j + 1] == [user[j]];
    }
    assert decoded == decoded[..p] + decoded[p..p + 1] + decoded[p + 1..];
  }

  /** The sextets of the payload are the alphabet characters before the
      first '='; begun at '=', the decoder stops. */
  lemma StopsAtPad(x: string, y: string)
    requires '=' !in x
    ensures Decoded(x + "=" + y) == Decoded(x)
  {
    StopsAtPadText(x, y);
    NoPad(x);
  }

  /** The number of decoded bytes is floor(6k/8) for k accepted
      characters. */
  lemma DecodedLength(e: string)
    ensures |Decoded(e)| == (6 * |Sextets(e)|) / 8
  {
  }

  // ---------------------------------------------------------------------
  // The encoder, as a reference: standard base64 round-trips

  /** The eight bits of each byte. */
  function ByteBits(s: string): (r: seq<bool>)
    decreases |s|
    ensures |r| == 8 * |s|
  {
    if s == [] then [] else Width(s[0] as nat, 8) + ByteBits(s[1..])
  }

  /** A bit string of a multiple of six bits, six at a time (from the
      end, so that the sextets come in the order Bits lays them out). */
  function Chunks(b: seq<bool>): (r: seq<nat>)
    decreases |b|
    ensures forall k :: 0 <= k < |r| ==> r[k] < 64
  {
    if |b| < 6 then []
    else
      var last := b[|b| - 6..];
      SextetValue(last);
      Chunks(b[..|b| - 6]) + [Value(last)]
  }

  function Chars(ds: seq<nat>): (r: string)
    requires forall k :: 0 <= k < |ds| ==> ds[k] < 64
    ensures |r| == |ds|
    ensures forall k :: 0 <= k < |r| ==> r[k] == Alphabet()[ds[k]]
  {
    seq(|ds|, k requires 0 <= k < |ds| => Alphabet()[ds[k]])
  }

  function Padding(n: nat): (r: string)
    ensures |r| == n && forall k :: 0 <= k < n ==> r[k] == '='
  {
    seq(n, _ => '=')
  }

  function Zeros(n: nat): (r: seq<bool>)
    ensures |r| == n
  {
    seq(n, _ => false)
  }

  /** The zero bits that complete `n` bits to whole sextets. */
  function SextetFill(n: nat): (r: nat)
    ensures r < 6 && (n + r) % 6 == 0
  {
    (6 - n % 6) % 6
  }

  /** The bits of the bytes, zero-padded to whole sextets. */
  function Padded(s: string): seq<bool> {
    ByteBits(s) + Zeros(SextetFill(|ByteBits(s)|))
  }

  /** The base64 encoding of section 4 of RFC 4648: the bits of the
      bytes, zero-padded to whole sextets, as alphabet characters, then
      '=' up to a multiple of four characters. */
  function Encode(s: string): string {
    var ds := Chunks(Padded(s));
    Chars(ds) + Padding((4 - |ds| % 4) % 4)
  }

  lemma {:induction false} ChunksBits(b: seq<bool>, k: nat)
    requires |b| == 6 * k
    decreases k
    ensures Bits(Chunks(b)) == b
  {
    if k > 0 {
      ChunksBits(b[..|b| - 6], k - 1);
      ChunksJoin(b);
    }
  }

  /** The last sextet's bits come last. */
  lemma ChunksJoin(b: seq<bool>)
    requires |b| >= 6
    requires Bits(Chunks(b[..|b| - 6])) == b[..|b| - 6]
    ensures Bits(Chunks(b)) == b
  {
    var t, last := b[..|b| - 6], b[|b| - 6..];
    SextetValue(last);
    assert Chunks(b) == Chunks(t) + [Value(last)];
    BitsSnoc(Chunks(t), Value(last));
    assert Bits(Chunks(b)) == t + last;
    TakeDrop(b, |b| - 6);
  }

  lemma TakeDrop(b: seq<bool>, n: nat)
    requires n <= |b|
    ensures b[..n] + b[n..] == b
  {
  }

  lemma SextetValue(last: seq<bool>)
    requires |last| == 6
    ensures Value(last) < 64 && Width(Value(last), 6) == last
  {
    ValueBound(last);
    assert Pow2(6) == 64;
    WidthValue(last);
  }

  lemma BitsSnoc(ds: seq<nat>, d: nat)
    requires forall k :: 0 <= k < |ds| ==> ds[k] < 64
    requires d < 64
    ensures Bits(ds + [d]) == Bits(ds) + Width(d, 6)
  {
    var xs := ds + [d];
    assert xs[..|xs| - 1] == ds;
  }

  lemma {:induction false} BytesOfBits(s: string, z: seq<bool>)
    requires IsBytes(s) && |z| < 8
    decreases |s|
    ensures Bytes(ByteBits(s) + z) == s
  {
    if s != [] {
      var t := s[1..];
      forall k | 0 <= k < |t|
        ensures t[k] as int < 256
      {
        assert t[k] == s[k + 1];
      }
      BytesOfBits(t, z);
      ByteCons(s, z);
      assert s == [s[0]] + t;
    }
  }

  /** The first byte's bits give the first byte. */
  lemma ByteCons(s: string, z: seq<bool>)
    requires s != [] && s[0] as int < 256
    ensures Bytes(ByteBits(s) + z) == [s[0]] + Bytes(ByteBits(s[1..]) + z)
  {
    ByteWidth(s[0]);
    ByteBitsCons(s, z);
    BytesLead(Width(s[0] as nat, 8), ByteBits(s[1..]) + z, s[0]);
  }

  lemma ByteBitsCons(s: string, z: seq<bool>)
    requires s != []
    ensures ByteBits(s) + z == Width(s[0] as nat, 8) + (ByteBits(s[1..]) + z)
  {
  }

  /** Eight leading bits of value `c` give the byte `c` first. */
  lemma BytesLead(w: seq<bool>, rest: seq<bool>, c: char)
    requires |w| == 8 && Value(w) == c as nat
    ensures Bytes(w + rest) == [c] + Bytes(rest)
  {
    BytesConcat(w, rest, 1);
    BytesAtEight(w);
  }

  /** The eight bits of a byte give the byte back. */
  lemma ByteWidth(c: char)
    requires c as int < 256
    ensures Value(Width(c as nat, 8)) == c as nat
  {
    assert Pow2(8) == 256;
    ValueWidth(c as nat, 8);
  }

  lemma {:induction false} AcceptedChars(ds: seq<nat>)
    requires forall k :: 0 <= k < |ds| ==> ds[k] < 64
    decreases |ds|
    ensures Accepted(Chars(ds)) == ds
  {
    if ds != [] {
      var t, d := ds[..|ds| - 1], ds[|ds| - 1];
      AcceptedChars(t);
      var cs := Chars(ds);
      assert cs[..|ds| - 1] == Chars(t);
      assert cs[|ds| - 1] == Digit(d);
      DigitIndex(d);
      assert Accepted(cs) == Accepted(cs[..|cs| - 1]) + [d];
      assert t + [d] == ds;
    }
  }

  /** Decoding standard base64 gives the bytes back. */
  lemma DecodeEncode(s: string)
    requires IsBytes(s)
    ensures Decoded(Encode(s)) == s
  {
    EncodedSextets(s);
    PaddedBits(s);
    BytesOfBits(s, Zeros(SextetFill(|ByteBits(s)|)));
  }

  /** The decoder reads back the sextets the encoder wrote. */
  lemma EncodedSextets(s: string)
    ensures Sextets(Encode(s)) == Chunks(Padded(s))
  {
    var ds := Chunks(Padded(s));
    var n := (4 - |ds| % 4) % 4;
    assert Encode(s) == Chars(ds) + Padding(n);
    PaddedChars(ds, n);
    AcceptedChars(ds);
  }

  lemma PaddedBits(s: string)
    ensures Bits(Chunks(Padded(s))) == Padded(s)
  {
    var p := Padded(s);
    SixMultiple(|p|);
    ChunksBits(p, |p| / 6);
  }

  lemma SixMultiple(n: nat)
    requires n % 6 == 0
    ensures n == 6 * (n / 6)
  {
  }

  /** The '=' padding ends the payload. */
  lemma PaddedChars(ds: seq<nat>, n: nat)
    requires forall k :: 0 <= k < |ds| ==> ds[k] < 64
    ensures BeforePad(Chars(ds) + Padding(n)) == Chars(ds)
  {
    var cs := Chars(ds);
    var pad := Padding(n);
    CharsPadFree(ds);
    if n == 0 {
      assert cs + pad == cs;
      NoPad(cs);
    } else {
      assert cs + pad == cs + "=" + pad[1..];
      StopsAtPadText(cs, pad[1..]);
    }
  }

  lemma StopsAtPadText(x: string, y: string)
    requires '=' !in x
    ensures BeforePad(x + "=" + y) == x
  {
    var e := x + "=" + y;
    assert e[..|x|] == x;
    PadFound(e, |x|);
  }

  lemma CharsPadFree(ds: seq<nat>)
    requires forall k :: 0 <= k < |ds| ==> ds[k] < 64
    ensures '=' !in Chars(ds)
  {
    var cs := Chars(ds);
    forall k | 0 <= k < |cs|
      ensures cs[k] != '='
    {
      DigitIndex(ds[k]);
    }
  }

  /** "Basic " and the standard base64 of "user:password" is accepted for
      exactly that user and password, provided the user-id has no colon. */
  lemma AcceptsEncodedCredentials(user: string, pass: string)
    requires ':' !in user && IsBytes(user + ":" + pass)
    ensures Authorized(Prefix + Encode(user + ":" + pass), user, pass)
  {
    var e := Encode(user + ":" + pass);
    var h := Prefix + e;
    assert OccursAt(h, Prefix, 0);
    assert h[6..] == e;
    EncodeBlankFree(user + ":" + pass);
    StrippedBlankFree(e);
    DecodeEncode(user + ":" + pass);
    CredentialsIff(user + ":" + pass, user, pass);
  }

  lemma EncodeBlankFree(s: string)
    ensures ' ' !in Encode(s) && '\n' !in Encode(s) && '\r' !in Encode(s)
  {
    var e := Encode(s);
    AlphabetIndex();
    forall k | 0 <= k < |e|
      ensures e[k] != ' ' && e[k] != '\n' && e[k] != '\r'
    {
    }
  }
}
