/**
 * The part of java.lang.String that the request classifier relies on:
 * `s.replace(target, "")`, which removes EVERY non-overlapping occurrence of
 * `target`, scanning from left to right (not only a leading one).
 */
module JavaString {

  /** True when `t` is a prefix of `s`. */
  predicate StartsWith(s: string, t: string) {
    |t| <= |s| && s[..|t|] == t
  }

  /** True when `t` occurs in `s` starting at index `i`. */
  predicate OccursAt(s: string, t: string, i: int) {
    0 <= i && i + |t| <= |s| && s[i..i + |t|] == t
  }

  /** True when `t` occurs in `s` as a contiguous piece. */
  ghost predicate Contains(s: string, t: string) {
    exists i :: OccursAt(s, t, i)
  }

  /**
   * `s.replace(t, "")`. With an empty target Java inserts the (empty)
   * replacement between every character, so the string comes back unchanged.
   */
  function RemoveAll(s: string, t: string): (r: string)
    ensures |r| <= |s|
    ensures t == [] ==> r == s
    decreases |s|
  {
    if t == [] || |s| < |t| then s
    else if StartsWith(s, t) then RemoveAll(s[|t|..], t)
    else [s[0]] + RemoveAll(s[1..], t)
  }

  /** A string in which `t` does not occur comes back unchanged. */
  lemma {:induction false} RemoveAllAbsent(s: string, t: string)
    requires !Contains(s, t)
    ensures RemoveAll(s, t) == s
    decreases |s|
  {
    if t != [] && |t| <= |s| {
      assert !OccursAt(s, t, 0);
      forall i | 0 <= i ensures !OccursAt(s[1..], t, i) {
        OccursShift(s, t, i + 1);
      }
      RemoveAllAbsent(s[1..], t);
    }
  }

  /**
   * Reference view of the same removal: the pieces of `s` between the
   * occurrences of `t` that a left-to-right scan finds.
   */
  function Split(s: string, t: string): (pieces: seq<string>)
    requires t != []
    ensures |pieces| >= 1
    decreases |s|
  {
    if |s| < |t| then [s]
    else if StartsWith(s, t) then [[]] + Split(s[|t|..], t)
    else
      var rest := Split(s[1..], t);
      [[s[0]] + rest[0]] + rest[1..]
  }

  /** The pieces glued back together with `t` between neighbours. */
  function Join(pieces: seq<string>, t: string): string
    requires |pieces| >= 1
  {
    if |pieces| == 1 then pieces[0] else pieces[0] + t + Join(pieces[1..], t)
  }

  /** The pieces glued back together with nothing between them. */
  function Concat(pieces: seq<string>): string {
    if pieces == [] then [] else pieces[0] + Concat(pieces[1..])
  }

  /** Splitting at the occurrences of `t` and joining with `t` restores `s`. */
  lemma {:induction false} JoinSplit(s: string, t: string)
    requires t != []
    ensures Join(Split(s, t), t) == s
    decreases |s|
  {
    if |s| < |t| {
    } else if StartsWith(s, t) {
      JoinSplit(s[|t|..], t);
      var rest := Split(s[|t|..], t);
      assert ([[]] + rest)[1..] == rest;
      assert Join([[]] + rest, t) == [] + t + Join(rest, t);
      assert s == t + s[|t|..];
    } else {
      JoinSplit(s[1..], t);
      JoinPrepend(s[0], Split(s[1..], t), t);
      assert s == [s[0]] + s[1..];
    }
  }

  /** Growing the first piece by one character grows the joined string by it. */
  lemma JoinPrepend(c: char, pieces: seq<string>, t: string)
    requires |pieces| >= 1
    ensures Join([[c] + pieces[0]] + pieces[1..], t) == [c] + Join(pieces, t)
  {
    var grown := [[c] + pieces[0]] + pieces[1..];
    assert grown[1..] == pieces[1..];
  }

  /** Removing every occurrence of `t` keeps exactly the pieces between them. */
  lemma {:induction false} RemoveAllIsConcatOfSplit(s: string, t: string)
    requires t != []
    ensures RemoveAll(s, t) == Concat(Split(s, t))
    decreases |s|
  {
    if |s| < |t| {
      assert Concat([s]) == s + Concat([]);
    } else if StartsWith(s, t) {
      RemoveAllIsConcatOfSplit(s[|t|..], t);
      var rest := Split(s[|t|..], t);
      assert ([[]] + rest)[1..] == rest;
    } else {
      RemoveAllIsConcatOfSplit(s[1..], t);
      var rest := Split(s[1..], t);
      var pieces := [[s[0]] + rest[0]] + rest[1..];
      assert pieces[1..] == rest[1..];
      assert Concat(rest) == rest[0] + Concat(rest[1..]);
    }
  }

  /** No piece between two removed occurrences contains `t` itself. */
  lemma {:induction false} SplitPiecesFree(s: string, t: string, k: nat)
    requires t != []
    requires k < |Split(s, t)|
    ensures !Contains(Split(s, t)[k], t)
    decreases |s|
  {
    if |s| < |t| {
      assert forall i :: !OccursAt(s, t, i);
    } else if StartsWith(s, t) {
      if k > 0 {
        SplitPiecesFree(s[|t|..], t, k - 1);
      }
    } else {
      var rest := Split(s[1..], t);
      if k > 0 {
        SplitPiecesFree(s[1..], t, k);
      } else {
        SplitPiecesFree(s[1..], t, 0);
        var head := [s[0]] + rest[0];
        JoinSplit(s[1..], t);
        assert s[1..] == rest[0] + (if |rest| == 1 then [] else t + Join(rest[1..], t));
        assert s == head + s[|head|..];
        assert !OccursAt(s, t, 0);
        forall i | 0 <= i ensures !OccursAt(head, t, i) {
          if i == 0 {
            OccursInPrefix(s, head, t, 0);
          } else {
            OccursShift(head, t, i);
          }
        }
      }
    }
  }

  /**
   * The split follows the left-to-right scan: the first piece ends at the
   * first occurrence of `t`, and the remaining pieces are the split of what
   * follows that occurrence.
   */
  lemma {:induction false} SplitFirstPiece(s: string, t: string)
    requires t != []
    ensures forall i :: 0 <= i < |Split(s, t)[0]| ==> !OccursAt(s, t, i)
    ensures |Split(s, t)| > 1 ==>
      OccursAt(s, t, |Split(s, t)[0]|)
      && Split(s, t)[1..] == Split(s[|Split(s, t)[0]| + |t|..], t)
    decreases |s|
  {
    var pieces := Split(s, t);
    if |s| < |t| {
    } else if StartsWith(s, t) {
      assert pieces[0] == [];
      assert OccursAt(s, t, 0);
      assert pieces[1..] == Split(s[|t|..], t);
    } else {
      var rest := Split(s[1..], t);
      SplitFirstPiece(s[1..], t);
      assert pieces == [[s[0]] + rest[0]] + rest[1..];
      assert !OccursAt(s, t, 0);
      forall i | 1 <= i < |pieces[0]| ensures !OccursAt(s, t, i) {
        OccursShift(s, t, i);
      }
      if |pieces| > 1 {
        OccursShift(s, t, |pieces[0]|);
        assert pieces[1..] == rest[1..];
        assert s[1..][|rest[0]| + |t|..] == s[|pieces[0]| + |t|..];
      }
    }
  }

  /** Looking one character further into `s` is looking at `s[1..]`. */
  lemma OccursShift(s: string, t: string, i: int)
    requires |s| >= 1 && i >= 1
    ensures OccursAt(s, t, i) == OccursAt(s[1..], t, i - 1)
  {
    if i + |t| <= |s| {
      var here, there := s[i..i + |t|], s[1..][i - 1..i - 1 + |t|];
      forall j | 0 <= j < |t| ensures here[j] == there[j] {}
      assert here == there;
    }
  }

  /** An occurrence inside a prefix of `s` is an occurrence in `s`. */
  lemma OccursInPrefix(s: string, p: string, t: string, i: int)
    requires |p| <= |s| && s[..|p|] == p
    ensures OccursAt(p, t, i) ==> OccursAt(s, t, i)
  {
    if 0 <= i && i + |t| <= |p| {
      assert p[i..i + |t|] == s[i..i + |t|];
    }
  }

  /** Every occurrence at the front is removed, however many there are. */
  lemma {:induction false} RemoveAllLeading(n: nat, t: string, s: string)
    ensures RemoveAll(Repeat(t, n) + s, t) == RemoveAll(s, t)
  {
    if n > 0 && t != [] {
      var u := Repeat(t, n) + s;
      assert u == t + (Repeat(t, n - 1) + s);
      assert StartsWith(u, t);
      assert u[|t|..] == Repeat(t, n - 1) + s;
      RemoveAllLeading(n - 1, t, s);
    } else if n == 0 {
      assert Repeat(t, n) + s == s;
    } else {
      assert Repeat(t, n) + s == s by { RepeatEmpty(n, t); }
    }
  }

  /** `n` copies of `t` one after another. */
  function Repeat(t: string, n: nat): string {
    if n == 0 then [] else t + Repeat(t, n - 1)
  }

  lemma {:induction false} RepeatEmpty(n: nat, t: string)
    requires t == []
    ensures Repeat(t, n) == []
  {
    if n > 0 { RepeatEmpty(n - 1, t); }
  }
}
