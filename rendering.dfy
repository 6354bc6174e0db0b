/** The two text-building steps the game's displays are made of:
    `" ".join` over single characters, and `sorted` over a set of letters. */
module Rendering {

  /** The length `" ".join` gives for n one-character pieces. */
  function JoinedLength(n: nat): nat
  {
    if n == 0 then 0 else 2 * n - 1
  }

  /** `" ".join(cs)` where every piece is one character: the pieces sit at
      the even positions, in order, with a space at each odd position. */
  function SpaceJoin(cs: seq<char>): (s: string)
    ensures |s| == JoinedLength(|cs|)
    ensures forall i :: 0 <= i < |cs| ==> s[2 * i] == cs[i]
    ensures forall k :: 0 <= k < |s| && k % 2 == 1 ==> s[k] == ' '
  {
    if |cs| <= 1 then cs
    else
      var rest := SpaceJoin(cs[1..]);
      var s := [cs[0], ' '] + rest;
      assert forall i :: 1 <= i < |cs| ==> s[2 * i] == rest[2 * (i - 1)];
      assert forall k :: 2 <= k < |s| ==> s[k] == rest[k - 2];
      s
  }

  /** `heading + " ".join(cs)` where every piece is one character. */
  function Labelled(heading: string, cs: seq<char>): (s: string)
    ensures |s| == |heading| + JoinedLength(|cs|)
    ensures s[..|heading|] == heading
    ensures forall i :: 0 <= i < |cs| ==> s[|heading| + 2 * i] == cs[i]
    ensures forall k :: 0 <= k < JoinedLength(|cs|) && k % 2 == 1 ==> s[|heading| + k] == ' '
  {
    var joined := SpaceJoin(cs);
    var s := heading + joined;
    assert forall k :: 0 <= k < |joined| ==> s[|heading| + k] == joined[k];
    s
  }

  /** Every non-empty set of characters has a least element. */
  lemma {:induction false} LeastExists(s: set<char>)
    requires s != {}
    ensures exists m :: m in s && forall x :: x in s ==> m <= x
  {
    var y :| y in s;
    if s != {y} {
      LeastExists(s - {y});
      var m :| m in s - {y} && forall x :: x in s - {y} ==> m <= x;
      var least := if y < m then y else m;
      forall x | x in s
        ensures least <= x
      {
        if x != y {
          assert x in s - {y};
        }
      }
    } else {
      assert forall x :: x in s ==> y <= x;
    }
  }

  /** The least element of a non-empty set of characters. */
  function Least(s: set<char>): (m: char)
    requires s != {}
    ensures m in s && forall x :: x in s ==> m <= x
  {
    LeastExists(s);
    var m :| m in s && forall x :: x in s ==> m <= x;
    m
  }

  /** `sorted(s)` for a set of characters: each element exactly once,
      in strictly ascending code-point order. */
  function Ascending(s: set<char>): (r: seq<char>)
    ensures |r| == |s|
    ensures forall c :: c in r <==> c in s
    ensures forall i, j :: 0 <= i < j < |r| ==> r[i] < r[j]
    decreases s
  {
    if s == {} then []
    else
      var m := Least(s);
      var rest := Ascending(s - {m});
      var r := [m] + rest;
      assert forall i :: 0 < i < |r| ==> r[i] == rest[i - 1];
      assert forall i :: 0 <= i < |rest| ==> m < rest[i];
      assert forall c :: c in r <==> c == m || c in rest;
      r
  }
}
