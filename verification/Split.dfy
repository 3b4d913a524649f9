/** Splitting a string at a delimiter, and joining the pieces again. */
module Split {
  import opened Wrappers

  /** d stands in s at i. */
  predicate At(s: string, d: string, i: nat) {
    i + |d| <= |s| && s[i..i + |d|] == d
  }

  /** std::string_view::find: the first place at or after `from` where d stands in s. */
  function Find(s: string, d: string, from: nat): (at: Option<nat>)
    ensures at.Some? ==> from <= at.value && at.value + |d| <= |s|
    decreases |s| - from
  {
    if |s| < from + |d| then None
    else if At(s, d, from) then Some(from)
    else Find(s, d, from + 1)
  }

  lemma {:induction false} FindFirst(s: string, d: string, from: nat)
    ensures match Find(s, d, from)
            case None => forall i :: from <= i ==> !At(s, d, i)
            case Some(at) => At(s, d, at) && forall i :: from <= i < at ==> !At(s, d, i)
    decreases |s| - from
  {
    if from + |d| <= |s| && !At(s, d, from) && from < |s| {
      FindFirst(s, d, from + 1);
    }
  }

  /** The first place is the only one with these properties. */
  lemma FindIs(s: string, d: string, from: nat, at: nat)
    requires from <= at && At(s, d, at) && forall i :: from <= i < at ==> !At(s, d, i)
    ensures Find(s, d, from) == Some(at)
  {
    FindFirst(s, d, from);
  }

  lemma FindIsNone(s: string, d: string, from: nat)
    requires forall i :: from <= i ==> !At(s, d, i)
    ensures Find(s, d, from) == None
  {
    FindFirst(s, d, from);
  }

  predicate Contains(s: string, d: string) {
    Find(s, d, 0).Some?
  }

  /** The pieces of s from `start` on, between the occurrences of d taken from the left. */
  function PiecesFrom(s: string, d: string, start: nat): (p: seq<string>)
    requires d != "" && start <= |s|
    ensures p != []
    decreases |s| - start
  {
    match Find(s, d, start)
    case None => [s[start..]]
    case Some(at) => [s[start..at]] + PiecesFrom(s, d, at + |d|)
  }

  function Pieces(s: string, d: string): (p: seq<string>)
    requires d != ""
    ensures p != []
  {
    PiecesFrom(s, d, 0)
  }

  function Join(p: seq<string>, d: string): string
    requires p != []
  {
    if |p| == 1 then p[0] else p[0] + d + Join(p[1..], d)
  }

  lemma {:induction false} JoinSnoc(pieces: seq<string>, last: string, d: string)
    requires pieces != []
    ensures Join(pieces + [last], d) == Join(pieces, d) + d + last
  {
    if |pieces| == 1 {
      assert (pieces + [last])[1..] == [last];
    } else {
      assert (pieces + [last])[1..] == pieces[1..] + [last];
      JoinSnoc(pieces[1..], last, d);
    }
  }

  function NonEmpty(p: seq<string>): seq<string> {
    if p == [] then [] else (if p[0] == "" then [] else [p[0]]) + NonEmpty(p[1..])
  }

  /** What split returns. The first piece is kept even when it is empty. */
  function SplitOf(s: string, d: string, condense: bool): seq<string>
    requires d != ""
  {
    if s == "" then []
    else
      var p := Pieces(s, d);
      [p[0]] + Kept(p[1..], condense)
  }

  function Kept(p: seq<string>, condense: bool): seq<string> {
    if condense then NonEmpty(p) else p
  }

  lemma KeptNext(out: seq<string>, sub: string, rest: seq<string>, condense: bool)
    ensures out + Kept([sub] + rest, condense)
         == (if sub == "" && condense then out else out + [sub]) + Kept(rest, condense)
  {
    assert ([sub] + rest)[1..] == rest;
  }

  method Split(str: string, delimiter: string, condense: bool) returns (out: seq<string>)
    requires delimiter != ""
    ensures out == SplitOf(str, delimiter, condense)
  {
    hide At, Find, Kept;
    if str == "" {
      return [];
    }
    var next := Find(str, delimiter, 0);
    if next == None {
      assert str[0..] == str && Pieces(str, delimiter)[1..] == [];
      NothingKept(condense);
      return [str];
    }
    out := [str[..next.value]];
    ghost var rest := PiecesFrom(str, delimiter, next.value + |delimiter|);
    ghost var whole := SplitOf(str, delimiter, condense);
    assert Pieces(str, delimiter)[1..] == rest;
    while next.Some?
      invariant next.Some? ==> next.value + |delimiter| <= |str|
      invariant rest == if next.Some? then PiecesFrom(str, delimiter, next.value + |delimiter|) else []
      invariant whole == out + Kept(rest, condense)
      decreases next.Some?, if next.Some? then |str| - next.value else 0
    {
      hide SplitOf, Pieces;
      var start := next.value + |delimiter|;
      next := Find(str, delimiter, start);
      var sub := if next.Some? then str[start..next.value] else str[start..];
      ghost var before := rest;
      rest := if next.Some? then PiecesFrom(str, delimiter, next.value + |delimiter|) else [];
      assert before == [sub] + rest;
      KeptNext(out, sub, rest, condense);
      hide PiecesFrom;
      if sub != "" || !condense {
        out := out + [sub];
      }
    }
    NothingKept(condense);
  }

  lemma NothingKept(condense: bool)
    ensures Kept([], condense) == []
  {
  }

  lemma {:induction false} RestRejoins(s: string, d: string, start: nat)
    requires d != "" && start <= |s|
    ensures Join(PiecesFrom(s, d, start), d) == s[start..]
    decreases |s| - start
  {
    hide Find;
    FindFirst(s, d, start);
    match Find(s, d, start)
    case None =>
    case Some(at) =>
      RestRejoins(s, d, at + |d|);
      assert PiecesFrom(s, d, start)[1..] == PiecesFrom(s, d, at + |d|);
      assert s[start..] == s[start..at] + s[at..at + |d|] + s[at + |d|..];
  }

  /** The pieces rejoin to the input. */
  lemma PiecesRejoin(s: string, d: string)
    requires d != ""
    ensures Join(Pieces(s, d), d) == s
  {
    RestRejoins(s, d, 0);
    assert s[0..] == s;
  }

  /** d does not stand in s[lo..hi] when it does not stand in s between lo and hi. */
  lemma NoneInSlice(s: string, d: string, lo: nat, hi: nat)
    requires d != "" && lo <= hi <= |s| && forall i :: lo <= i < hi ==> !At(s, d, i)
    ensures !Contains(s[lo..hi], d)
  {
    var t := s[lo..hi];
    FindFirst(t, d, 0);
    forall i: nat
      ensures At(t, d, i) ==> lo + i < hi && At(s, d, lo + i)
    {
      if i + |d| <= |t| {
        SliceOfSlice(s, lo, hi, i, i + |d|);
      }
    }
  }

  lemma SliceOfSlice(s: string, lo: nat, hi: nat, i: nat, j: nat)
    requires lo <= hi <= |s| && i <= j <= hi - lo
    ensures s[lo..hi][i..j] == s[lo + i..lo + j]
  {
    var t := s[lo..hi];
    assert forall k | 0 <= k < j - i :: t[i..j][k] == s[lo + i..lo + j][k];
  }

  /** No piece contains the delimiter. */
  lemma {:induction false} RestWithoutDelimiter(s: string, d: string, start: nat)
    requires d != "" && start <= |s|
    ensures forall p :: p in PiecesFrom(s, d, start) ==> !Contains(p, d)
    decreases |s| - start
  {
    FindFirst(s, d, start);
    hide At, Find, Contains;
    match Find(s, d, start)
    case None =>
      NoneInSlice(s, d, start, |s|);
      assert s[start..|s|] == s[start..];
    case Some(at) =>
      NoneInSlice(s, d, start, at);
      RestWithoutDelimiter(s, d, at + |d|);
  }

  lemma PiecesWithoutDelimiter(s: string, d: string)
    requires d != ""
    ensures forall p :: p in Pieces(s, d) ==> !Contains(p, d)
  {
    RestWithoutDelimiter(s, d, 0);
  }

  /** For a one-character delimiter the pieces determine themselves: splitting undoes joining. */
  lemma SplitUndoesJoin(p: seq<string>, c: char)
    requires p != [] && forall q :: q in p ==> c !in q
    ensures Pieces(Join(p, [c]), [c]) == p
  {
    SplitUndoesJoinAfter("", p, c);
    assert "" + Join(p, [c]) == Join(p, [c]);
  }

  lemma {:induction false} SplitUndoesJoinAfter(before: string, p: seq<string>, c: char)
    requires p != [] && forall q :: q in p ==> c !in q
    ensures PiecesFrom(before + Join(p, [c]), [c], |before|) == p
    decreases |p|
  {
    var s := before + Join(p, [c]);
    var k := |before|;
    if |p| == 1 {
      assert s[k..] == p[0];
      forall i | k <= i < |s|
        ensures s[i] != c
      {
        assert s[i] == p[0][i - k] && p[0][i - k] in p[0];
      }
      CharacterNotFound(s, c, k);
    } else {
      var rest := Join(p[1..], [c]);
      var next := before + p[0] + [c];
      assert s == next + rest;
      assert s[k..k + |p[0]|] == p[0];
      forall i | k <= i < k + |p[0]|
        ensures s[i] != c
      {
        assert s[i] == p[0][i - k] && p[0][i - k] in p[0];
      }
      CharacterFound(s, c, k, k + |p[0]|);
      SplitUndoesJoinAfter(next, p[1..], c);
    }
  }

  lemma AtCharacter(s: string, c: char, i: nat)
    ensures At(s, [c], i) <==> i < |s| && s[i] == c
  {
    if i < |s| {
      assert s[i..i + 1] == [s[i]];
    }
  }

  lemma CharacterNotFound(s: string, c: char, from: nat)
    requires forall i :: from <= i < |s| ==> s[i] != c
    ensures Find(s, [c], from) == None
  {
    forall i: nat
      ensures At(s, [c], i) <==> i < |s| && s[i] == c
    {
      AtCharacter(s, c, i);
    }
    FindIsNone(s, [c], from);
  }

  lemma CharacterFound(s: string, c: char, from: nat, at: nat)
    requires from <= at < |s| && s[at] == c && forall i :: from <= i < at ==> s[i] != c
    ensures Find(s, [c], from) == Some(at)
  {
    forall i: nat
      ensures At(s, [c], i) <==> i < |s| && s[i] == c
    {
      AtCharacter(s, c, i);
    }
    FindIs(s, [c], from, at);
  }

  /** The header promises that condensing leaves out empty pieces. It does so exactly when the
      input does not begin with the delimiter. */
  lemma CondensedHasNoEmpty(s: string, d: string)
    requires d != ""
    ensures "" !in SplitOf(s, d, true) <==> (s == "" || Find(s, d, 0) != Some(0))
  {
    hide Find, At;
    if s != "" {
      var p := Pieces(s, d);
      NonEmptyHasNone(p[1..]);
      var all := SplitOf(s, d, true);
      assert all == [p[0]] + NonEmpty(p[1..]);
      assert all[0] == p[0];
      assert p[0] == "" <==> Find(s, d, 0) == Some(0);
    }
  }

  lemma NonEmptyHasNone(p: seq<string>)
    ensures "" !in NonEmpty(p)
  {
  }
}
