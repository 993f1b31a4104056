/** The file-name glob of `Include` directives: `*` for any run of bytes, `?` for one. */
module Glob {
  import opened Widths

  const STAR: Byte := 42
  const ANY: Byte := 63

  /** `glob_match`. */
  predicate Matches(pat: seq<Byte>, val: seq<Byte>)
    decreases |pat| + |val|
  {
    if pat == [] then val == []
    else if pat[0] == STAR then Matches(pat[1..], val) || (val != [] && Matches(pat, val[1..]))
    else val != [] && (pat[0] == ANY || pat[0] == val[0]) && Matches(pat[1..], val[1..])
  }

  /** What one pattern byte stands for. */
  predicate Stands(p: Byte, piece: seq<Byte>) {
    if p == STAR then true else |piece| == 1 && (p == ANY || piece[0] == p)
  }

  function Flatten(pieces: seq<seq<Byte>>): seq<Byte> {
    if pieces == [] then [] else pieces[0] + Flatten(pieces[1..])
  }

  /** `val` cut into one piece per pattern byte, each of the kind that byte stands for. */
  predicate Explains(pat: seq<Byte>, val: seq<Byte>, pieces: seq<seq<Byte>>) {
    && |pieces| == |pat| && Flatten(pieces) == val
    && forall i :: 0 <= i < |pat| ==> Stands(pat[i], pieces[i])
  }

  lemma {:induction false} MatchExplained(pat: seq<Byte>, val: seq<Byte>) returns (pieces: seq<seq<Byte>>)
    requires Matches(pat, val)
    ensures Explains(pat, val, pieces)
    decreases |pat| + |val|
  {
    if pat == [] {
      pieces := [];
    } else if pat[0] == STAR && Matches(pat[1..], val) {
      var rest := MatchExplained(pat[1..], val);
      pieces := [[]] + rest;
      assert pieces[1..] == rest;
    } else if pat[0] == STAR {
      var longer := MatchExplained(pat, val[1..]);
      pieces := longer[0 := [val[0]] + longer[0]];
      assert pieces[1..] == longer[1..];
      assert val == [val[0]] + val[1..];
    } else {
      var rest := MatchExplained(pat[1..], val[1..]);
      pieces := [[val[0]]] + rest;
      assert pieces[1..] == rest;
    }
  }

  lemma {:induction false} ExplainedMatches(pat: seq<Byte>, val: seq<Byte>, pieces: seq<seq<Byte>>)
    requires Explains(pat, val, pieces)
    ensures Matches(pat, val)
    decreases |pat| + |val|
  {
    if pat != [] {
      if pat[0] == STAR && pieces[0] != [] {
        var shorter := pieces[0 := pieces[0][1..]];
        assert val[1..] == pieces[0][1..] + Flatten(pieces[1..]);
        assert shorter[1..] == pieces[1..];
        ExplainedMatches(pat, val[1..], shorter);
      } else if pat[0] == STAR {
        assert val == Flatten(pieces[1..]);
        ExplainedMatches(pat[1..], val, pieces[1..]);
      } else {
        assert Stands(pat[0], pieces[0]);
        assert val[1..] == Flatten(pieces[1..]);
        ExplainedMatches(pat[1..], val[1..], pieces[1..]);
      }
    }
  }

  /** The matcher agrees with the declarative meaning of `*` and `?`. */
  lemma GlobMeaning(pat: seq<Byte>, val: seq<Byte>)
    ensures Matches(pat, val) <==> exists pieces :: Explains(pat, val, pieces)
  {
    if Matches(pat, val) { var pieces := MatchExplained(pat, val); }
    forall pieces | Explains(pat, val, pieces) ensures Matches(pat, val) {
      ExplainedMatches(pat, val, pieces);
    }
  }

  lemma {:induction false} FlattenConcat(a: seq<seq<Byte>>, b: seq<seq<Byte>>)
    ensures Flatten(a + b) == Flatten(a) + Flatten(b)
  {
    if a == [] {
      assert a + b == b;
    } else {
      assert (a + b)[1..] == a[1..] + b;
      FlattenConcat(a[1..], b);
    }
  }

  lemma CutMatch(p: seq<Byte>, q: seq<Byte>, val: seq<Byte>) returns (k: nat)
    requires Matches(p + q, val)
    ensures k <= |val| && Matches(p, val[..k]) && Matches(q, val[k..])
  {
    hide Matches, Flatten, Stands;
    var pieces := MatchExplained(p + q, val);
    var a, b := pieces[..|p|], pieces[|p|..];
    assert pieces == a + b;
    FlattenConcat(a, b);
    k := |Flatten(a)|;
    assert val[..k] == Flatten(a) && val[k..] == Flatten(b);
    forall i | 0 <= i < |q| ensures Stands(q[i], b[i]) { assert Stands((p + q)[|p| + i], pieces[|p| + i]); }
    forall i | 0 <= i < |p| ensures Stands(p[i], a[i]) { assert Stands((p + q)[i], pieces[i]); }
    ExplainedMatches(p, val[..k], a);
    ExplainedMatches(q, val[k..], b);
  }

  lemma JoinMatch(p: seq<Byte>, q: seq<Byte>, val: seq<Byte>, k: nat)
    requires k <= |val| && Matches(p, val[..k]) && Matches(q, val[k..])
    ensures Matches(p + q, val)
  {
    hide Matches, Flatten, Stands;
    var a := MatchExplained(p, val[..k]);
    var b := MatchExplained(q, val[k..]);
    FlattenConcat(a, b);
    assert val == val[..k] + val[k..];
    ExplainedMatches(p + q, val, a + b);
  }

  /** A concatenated pattern matches exactly the values that split into two parts, one
      for each half. */
  lemma ConcatSplits(p: seq<Byte>, q: seq<Byte>, val: seq<Byte>)
    ensures Matches(p + q, val) <==> exists k :: 0 <= k <= |val| && Matches(p, val[..k]) && Matches(q, val[k..])
  {
    hide Matches;
    if Matches(p + q, val) { var k := CutMatch(p, q, val); }
    forall k | 0 <= k <= |val| && Matches(p, val[..k]) && Matches(q, val[k..]) ensures Matches(p + q, val) {
      JoinMatch(p, q, val, k);
    }
  }

  /** `*` matches everything and `?` any one byte; anything else matches itself alone. */
  lemma SingleByte(p: Byte, val: seq<Byte>)
    ensures Matches([p], val) <==> p == '*' as int || (|val| == 1 && (p == '?' as int || val[0] == p))
  {
    GlobMeaning([p], val);
    if Matches([p], val) {
      var pieces := MatchExplained([p], val);
      assert pieces == [pieces[0]] && Flatten(pieces[1..]) == [];
    } else if p == '*' as int || (|val| == 1 && (p == '?' as int || val[0] == p)) {
      var pieces := [val];
      assert pieces[1..] == [] && Flatten(pieces) == val;
      assert Explains([p], val, pieces);
    }
  }
}
