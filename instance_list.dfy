/** The DEVICE_INSTANCES fallback of get_device_instances
    (src/device_config.cpp): the variable's value is cut at every ',',
    each piece is trimmed of spaces and tabs, and the non-empty pieces are
    kept in order. */
module InstanceList {
  import opened Text

  /** The pieces before the last comma, and the text after it. */
  function Split(s: string): (r: (seq<string>, string))
    decreases |s|
    ensures ',' !in r.1 && forall k :: 0 <= k < |r.0| ==> ',' !in r.0[k]
  {
    if s == [] then ([], "")
    else
      var (done, cur) := Split(s[..|s| - 1]);
      if s[|s| - 1] == ',' then (done + [cur], "") else (done, cur + [s[|s| - 1]])
  }

  /** The pieces between commas.  std::getline yields no final empty
      piece after a trailing comma and no piece at all for an empty
      string; both differences are empty pieces, which are dropped below,
      so the entries are the same. */
  function Pieces(s: string): (r: seq<string>) {
    Split(s).0 + [Split(s).1]
  }

  /** One trimmed piece, if it is not empty. */
  function Entry(p: string): seq<string> {
    if Trim(p) != "" then [Trim(p)] else []
  }

  function Keep(ps: seq<string>): seq<string>
    decreases |ps|
  {
    if ps == [] then [] else Keep(ps[..|ps| - 1]) + Entry(ps[|ps| - 1])
  }

  /** The instances configured by a DEVICE_INSTANCES value. */
  function EnvEntries(v: string): seq<string> {
    Keep(Pieces(v))
  }

  /** The pieces joined back with commas. */
  function Join(xs: seq<string>): string
    decreases |xs|
  {
    if xs == [] then ""
    else if |xs| == 1 then xs[0]
    else Join(xs[..|xs| - 1]) + "," + xs[|xs| - 1]
  }

  /** The getline loop: characters are collected up to each ',', and the
      trimmed piece is kept when it is not empty. */
  method SplitInstances(v: string) returns (xs: seq<string>)
    ensures xs == EnvEntries(v)
  {
    xs := [];
    var cur := "";
    ghost var done: seq<string> := [];
    for i := 0 to |v|
      invariant Split(v[..i]) == (done, cur)
      invariant xs == Keep(done)
    {
      assert v[..i + 1][..i] == v[..i];
      if v[i] == ',' {
        assert (done + [cur])[..|done|] == done;
        done := done + [cur];
        var t := Trim(cur);
        if t != "" {
          xs := xs + [t];
        }
        cur := "";
      } else {
        cur := cur + [v[i]];
      }
    }
    assert v[..|v|] == v;
    assert (done + [cur])[..|done|] == done;
    var t := Trim(cur);
    if t != "" {
      xs := xs + [t];
    }
  }

  // ---------------------------------------------------------------------
  // Properties

  /** Joining the pieces with commas gives the string back. */
  lemma {:induction false} JoinPieces(s: string)
    decreases |s|
    ensures Join(Pieces(s)) == s
  {
    if s != [] {
      var s', c := s[..|s| - 1], s[|s| - 1];
      JoinPieces(s');
      var (d, cur) := Split(s');
      assert s == s' + [c];
      assert Join(d + [cur]) == s';
      if c == ',' {
        var p := d + [cur] + [""];
        assert Pieces(s) == p;
        assert p[..|p| - 1] == d + [cur];
      } else {
        var p := d + [cur + [c]];
        assert Pieces(s) == p;
        assert p[..|p| - 1] == d && (d + [cur])[..|d|] == d;
      }
    }
  }

  /** A comma-free string is a single piece. */
  lemma {:induction false} SplitPlain(x: string)
    requires ',' !in x
    decreases |x|
    ensures Split(x) == ([], x)
  {
    if x != [] {
      assert x[|x| - 1] in x;
      assert forall k :: 0 <= k < |x| - 1 ==> x[..|x| - 1][k] == x[k];
      SplitPlain(x[..|x| - 1]);
      assert x[..|x| - 1] + [x[|x| - 1]] == x;
    }
  }

  /** A comma splits the pieces of the two sides. */
  lemma {:induction false} SplitConcat(a: string, b: string)
    decreases |b|
    ensures Split(a + [','] + b) == (Pieces(a) + Split(b).0, Split(b).1)
  {
    var s := a + [','] + b;
    if b == [] {
      assert s == a + [','];
      assert s[..|s| - 1] == a;
      assert Split(s) == (Pieces(a), "");
      assert Split(b) == ([], "");
      assert Pieces(a) + [] == Pieces(a);
    } else {
      var b', c := b[..|b| - 1], b[|b| - 1];
      SplitConcat(a, b');
      assert s[..|s| - 1] == a + [','] + b';
      assert s[|s| - 1] == c;
      var (d, cur) := Split(b');
      if c == ',' {
        assert Pieces(a) + d + [cur] == Pieces(a) + (d + [cur]);
      }
    }
  }

  /** A non-empty entry with no blank at either end. */
  predicate Plain(x: string) {
    x != "" && !IsBlank(x[0]) && !IsBlank(x[|x| - 1])
  }

  lemma KeepSnoc(ps: seq<string>, p: string)
    ensures Keep(ps + [p]) == Keep(ps) + Entry(p)
  {
    var qs := ps + [p];
    assert qs[..|qs| - 1] == ps;
  }

  /** Plain entries are kept as they are. */
  lemma {:induction false} KeepTrimmed(xs: seq<string>)
    requires forall k :: 0 <= k < |xs| ==> Plain(xs[k])
    decreases |xs|
    ensures Keep(xs) == xs
  {
    if xs != [] {
      var ys, x := xs[..|xs| - 1], xs[|xs| - 1];
      assert xs == ys + [x];
      assert forall k :: 0 <= k < |ys| ==> ys[k] == xs[k];
      KeepTrimmed(ys);
      TrimFixed(x);
      KeepSnoc(ys, x);
    }
  }

  /** Comma-free pieces join into a string whose pieces they are. */
  lemma {:induction false} PiecesJoin(xs: seq<string>)
    requires xs != []
    requires forall k :: 0 <= k < |xs| ==> ',' !in xs[k]
    decreases |xs|
    ensures Pieces(Join(xs)) == xs
  {
    if |xs| == 1 {
      SplitPlain(xs[0]);
    } else {
      var ys, x := xs[..|xs| - 1], xs[|xs| - 1];
      PiecesJoin(ys);
      SplitConcat(Join(ys), x);
      SplitPlain(x);
      assert Join(xs) == Join(ys) + [','] + x;
      assert ys + [x] == xs;
    }
  }

  /** Trimming keeps a character out. */
  lemma TrimKeepsOut(p: string, c: char)
    requires c !in p
    ensures c !in Trim(p)
  {
    TrimIsSlice(p);
    var t := Trim(p);
    var i := FirstNonBlank(p, 0);
    forall k | 0 <= k < |t|
      ensures t[k] != c
    {
      assert t[k] == p[i + k];
    }
  }

  /** The entries never hold an empty string or a blank at either end,
      and they are comma-free. */
  lemma {:induction false} EntriesShape(v: string)
    ensures forall k :: 0 <= k < |EnvEntries(v)| ==>
              && EnvEntries(v)[k] != "" && ',' !in EnvEntries(v)[k]
              && Trim(EnvEntries(v)[k]) == EnvEntries(v)[k]
  {
    var ps := Pieces(v);
    assert forall k :: 0 <= k < |ps| ==> ',' !in ps[k];
    KeepShape(ps);
  }

  lemma {:induction false} KeepShape(ps: seq<string>)
    requires forall k :: 0 <= k < |ps| ==> ',' !in ps[k]
    decreases |ps|
    ensures forall k :: 0 <= k < |Keep(ps)| ==> Keep(ps)[k] != "" && ',' !in Keep(ps)[k] && Trim(Keep(ps)[k]) == Keep(ps)[k]
  {
    if ps != [] {
      var p := ps[|ps| - 1];
      assert forall k :: 0 <= k < |ps| - 1 ==> ps[..|ps| - 1][k] == ps[k];
      KeepShape(ps[..|ps| - 1]);
      var t := Trim(p);
      if t != "" {
        TrimEnds(p);
        TrimFixed(t);
        TrimKeepsOut(p, ',');
      }
    }
  }

  /** Listing instances in DEVICE_INSTANCES, separated by commas, gives
      exactly those instances back, provided each is non-empty,
      comma-free and has no blank at either end. */
  lemma JoinRoundTrip(xs: seq<string>)
    requires forall k :: 0 <= k < |xs| ==> Plain(xs[k]) && ',' !in xs[k]
    ensures EnvEntries(Join(xs)) == xs
  {
    if xs == [] {
      assert Pieces("") == [""];
      KeepSnoc([], "");
    } else {
      var j := Join(xs);
      PiecesJoin(xs);
      KeepTrimmed(xs);
      assert EnvEntries(j) == Keep(Pieces(j));
    }
  }
}
