/** Block producers that take turns around a ring, and how the blocks that each
    sealed compare when one of them falls silent. */
module Rotation {
  import opened Basics

  function Names(ring: seq<string>): set<string> {
    set v | v in ring
  }

  lemma {:induction false} NamesCount(ring: seq<string>)
    requires Distinct(ring)
    ensures |Names(ring)| == |ring|
  {
    if ring != [] {
      var front, last := ring[..|ring| - 1], ring[|ring| - 1];
      NamesCount(front);
      assert ring == front + [last];
      assert Names(ring) == Names(front) + {last};
    }
  }

  /** The place d places after place i on a ring of n. */
  function Around(i: nat, d: nat, n: nat): (j: nat)
    requires i < n && d <= n
    ensures j < n
  {
    if i + d < n then i + d else i + d - n
  }

  /** The producer d places after place i on the ring. */
  ghost function Ahead(ring: seq<string>, i: nat, d: nat): string
    requires i < |ring| && d <= |ring|
  {
    ring[Around(i, d, |ring|)]
  }

  /** How many places after place i the place p lies; a full round for i itself. */
  function Gap(i: nat, p: nat, n: nat): (d: nat)
    requires i < n && p < n
    ensures 1 <= d <= n && Around(i, d, n) == p
  {
    if p > i then p - i else n + p - i
  }

  /** The turn passes from place i to place j and skips no live producer. */
  ghost predicate PassesTurn(ring: seq<string>, live: set<string>, i: nat, j: nat)
    requires i < |ring|
  {
    exists d: nat :: 1 <= d <= |ring| && j == Around(i, d, |ring|)
                     && forall e: nat :: 0 < e < d ==> Ahead(ring, i, e) !in live
  }

  /** Block h of a stretch is sealed at place turns[h], and no live producer is
      skipped; others may come and go. */
  ghost predicate Rotates(ring: seq<string>, live: set<string>, turns: seq<nat>, blocks: seq<string>) {
    && |turns| == |blocks|
    && (forall h :: 0 <= h < |blocks| ==> turns[h] < |ring| && blocks[h] == ring[turns[h]])
    && (forall h :: 0 <= h < |blocks| - 1 ==> PassesTurn(ring, live, turns[h], turns[h + 1]))
  }

  /** The blocks of a stretch that v sealed. */
  function Count(blocks: seq<string>, v: string): nat {
    if blocks == [] then 0
    else Count(blocks[..|blocks| - 1], v) + if blocks[|blocks| - 1] == v then 1 else 0
  }

  lemma {:induction false} CountIsMultiplicity(blocks: seq<string>, v: string)
    ensures Count(blocks, v) == multiset(blocks)[v]
    decreases |blocks|
  {
    if blocks != [] {
      var front, last := blocks[..|blocks| - 1], blocks[|blocks| - 1];
      CountIsMultiplicity(front, v);
      assert blocks == front + [last];
    }
  }

  /** What a client reports of a stretch: the blocks sealed by each producer. */
  function Tally(blocks: seq<string>, producers: set<string>): map<string, int> {
    map v | v in producers :: Count(blocks, v)
  }

  lemma {:induction false} CountConcat(a: seq<string>, b: seq<string>, v: string)
    ensures Count(a + b, v) == Count(a, v) + Count(b, v)
    decreases |b|
  {
    if b == [] {
      assert a + b == a;
    } else {
      var n := |b| - 1;
      assert (a + b)[..|a + b| - 1] == a + b[..n];
      CountConcat(a, b[..n], v);
    }
  }

  lemma PrefixCount(blocks: seq<string>, k: nat, v: string)
    requires k <= |blocks|
    ensures Count(blocks[..k], v) + Count(blocks[k..], v) == Count(blocks, v)
  {
    assert blocks == blocks[..k] + blocks[k..];
    CountConcat(blocks[..k], blocks[k..], v);
  }

  lemma {:induction false} CountZero(blocks: seq<string>, v: string)
    requires v !in blocks
    ensures Count(blocks, v) == 0
    decreases |blocks|
  {
    if blocks != [] {
      CountZero(blocks[..|blocks| - 1], v);
    }
  }

  lemma {:induction false} CountDistinct(ring: seq<string>, v: string)
    requires Distinct(ring)
    ensures Count(ring, v) == if v in ring then 1 else 0
    decreases |ring|
  {
    if ring != [] {
      var front := ring[..|ring| - 1];
      CountDistinct(front, v);
      assert ring == front + [ring[|ring| - 1]];
    }
  }

  lemma {:induction false} TallySums(blocks: seq<string>, producers: set<string>)
    requires forall b :: b in blocks ==> b in producers
    ensures Sum(Tally(blocks, producers)) == |blocks|
    decreases |blocks|
  {
    var m := Tally(blocks, producers);
    if blocks == [] {
      SumBounds(m, {}, 0, 0);
    } else {
      var front, x := blocks[..|blocks| - 1], blocks[|blocks| - 1];
      TallySums(front, producers);
      var before := Tally(front, producers);
      assert x in blocks;
      SumRemove(m, x);
      SumRemove(before, x);
      assert m - {x} == before - {x};
    }
  }

  /** Pigeonhole: more than c blocks for each producer but v, and none by v,
      give some producer more than c. */
  lemma SomeoneSealsMore(blocks: seq<string>, producers: set<string>, v: string, c: nat) returns (u: string)
    requires v in producers && v !in blocks && forall b :: b in blocks ==> b in producers
    requires |blocks| > c * (|producers| - 1)
    ensures u in producers && u in blocks && Count(blocks, u) > c
  {
    var m, others := Tally(blocks, producers), producers - {v};
    CountZero(blocks, v);
    assert |others| == |producers| - 1;
    if forall w :: w in others ==> m[w] <= c {
      TallySums(blocks, producers);
      SumBounds(m, others, 0, c);
      assert false;
    }
    u :| u in others && m[u] > c;
    if u !in blocks {
      CountZero(blocks, u);
    }
  }

  // ---- Fairness ------------------------------------------------------------

  /** If u is live and comes before v, the next turn is u's or still before u. */
  lemma MoveKeepsOrder(ring: seq<string>, live: set<string>, i: nat, j: nat, u: nat, v: nat)
    requires i < |ring| && u < |ring| && v < |ring| && u != v && ring[u] in live
    requires PassesTurn(ring, live, i, j) && j < |ring|
    requires Gap(i, u, |ring|) < Gap(i, v, |ring|)
    ensures j == u || (j != v && Gap(j, u, |ring|) < Gap(j, v, |ring|))
  {
    var d: nat :| 1 <= d <= |ring| && j == Around(i, d, |ring|)
                  && forall e: nat :: 0 < e < d ==> Ahead(ring, i, e) !in live;
    assert Ahead(ring, i, Gap(i, u, |ring|)) == ring[u];
  }

  /** While u is never skipped, v seals at most one block more than u, and none
      more when v is the next of the two. */
  lemma {:induction false} FairAtPlaces(ring: seq<string>, live: set<string>, turns: seq<nat>, blocks: seq<string>,
                                        u: nat, v: nat)
    requires Distinct(ring) && Rotates(ring, live, turns, blocks)
    requires u < |ring| && v < |ring| && u != v && ring[u] in live
    ensures Count(blocks, ring[v]) <= Count(blocks, ring[u]) +
            if blocks != [] && Gap(turns[|blocks| - 1], u, |ring|) < Gap(turns[|blocks| - 1], v, |ring|) then 1 else 0
    decreases |blocks|
  {
    if blocks != [] {
      var n := |blocks| - 1;
      assert Rotates(ring, live, turns[..n], blocks[..n]);
      FairAtPlaces(ring, live, turns[..n], blocks[..n], u, v);
      if n > 0 && Gap(turns[n - 1], u, |ring|) < Gap(turns[n - 1], v, |ring|) {
        MoveKeepsOrder(ring, live, turns[n - 1], turns[n], u, v);
      }
      assert blocks[n] == ring[v] <==> turns[n] == v;
      assert blocks[n] == ring[u] <==> turns[n] == u;
    }
  }

  /** In any stretch a producer seals at most one block more than one that is
      live throughout. */
  lemma FairShare(ring: seq<string>, live: set<string>, turns: seq<nat>, blocks: seq<string>, u: string, v: string)
    requires Distinct(ring) && Rotates(ring, live, turns, blocks)
    requires u in ring && u in live && v in ring && u != v
    ensures Count(blocks, v) <= Count(blocks, u) + 1
  {
    var i :| 0 <= i < |ring| && ring[i] == u;
    var j :| 0 <= j < |ring| && ring[j] == v;
    FairAtPlaces(ring, live, turns, blocks, i, j);
  }

  // ---- A producer falls silent ---------------------------------------------

  /** v sealed none of the last k blocks, and before them no live producer was
      skipped. */
  ghost predicate FallsSilent(ring: seq<string>, live: set<string>, turns: seq<nat>, blocks: seq<string>, v: string,
                              k: nat) {
    && Distinct(ring) && v in ring && k <= |blocks| == |turns|
    && Rotates(ring, live, turns[..|blocks| - k], blocks[..|blocks| - k])
    && forall b :: b in blocks[|blocks| - k..] ==> b in ring && b != v
  }

  /** Whoever sealed one of the last k blocks was live before them too. */
  predicate NobodyReturned(live: set<string>, blocks: seq<string>, k: nat)
    requires k <= |blocks|
  {
    forall b :: b in blocks[|blocks| - k..] ==> b in live
  }

  /** The stretch before the silence and the silence make up the window. */
  lemma SplitCount(blocks: seq<string>, k: nat, v: string)
    requires k <= |blocks|
    ensures Count(blocks, v) == Count(blocks[..|blocks| - k], v) + Count(blocks[|blocks| - k..], v)
  {
    PrefixCount(blocks, |blocks| - k, v);
  }

  lemma RotatesFewer(ring: seq<string>, live: set<string>, fewer: set<string>, turns: seq<nat>, blocks: seq<string>)
    requires Rotates(ring, live, turns, blocks) && fewer <= live
    ensures Rotates(ring, fewer, turns, blocks)
  {
    forall h | 0 <= h < |blocks| - 1 ensures PassesTurn(ring, fewer, turns[h], turns[h + 1]) {
      assert PassesTurn(ring, live, turns[h], turns[h + 1]);
    }
  }

  // ---- Walking around the ring ---------------------------------------------

  /** How far ahead of place i, from d on, the next producer of keep is. */
  ghost function NextGap(ring: seq<string>, keep: set<string>, i: nat, d: nat): (r: nat)
    requires i < |ring| && ring[i] in keep && 1 <= d <= |ring|
    ensures d <= r <= |ring| && Ahead(ring, i, r) in keep
    ensures forall e: nat :: d <= e < r ==> Ahead(ring, i, e) !in keep
    decreases |ring| - d
  {
    if Ahead(ring, i, d) in keep then d else NextGap(ring, keep, i, d + 1)
  }

  /** The places of b turns that pass from place i over the producers of keep. */
  ghost function Walk(ring: seq<string>, keep: set<string>, i: nat, b: nat): (turns: seq<nat>)
    requires i < |ring| && ring[i] in keep
    ensures |turns| == b && (b > 0 ==> turns[0] == i)
    ensures forall h :: 0 <= h < b ==> turns[h] < |ring| && ring[turns[h]] in keep
    decreases b
  {
    if b == 0 then [] else if b == 1 then [i] else
      var front := Walk(ring, keep, i, b - 1);
      var last := front[b - 2];
      front + [Around(last, NextGap(ring, keep, last, 1), |ring|)]
  }

  /** The blocks sealed at these places. */
  function BlocksAt(ring: seq<string>, turns: seq<nat>): (blocks: seq<string>)
    requires forall h :: 0 <= h < |turns| ==> turns[h] < |ring|
    ensures |blocks| == |turns| && forall h :: 0 <= h < |turns| ==> blocks[h] == ring[turns[h]]
  {
    seq(|turns|, h requires 0 <= h < |turns| => ring[turns[h]])
  }

  lemma {:induction false} WalkPasses(ring: seq<string>, keep: set<string>, i: nat, b: nat)
    requires i < |ring| && ring[i] in keep
    ensures Rotates(ring, keep, Walk(ring, keep, i, b), BlocksAt(ring, Walk(ring, keep, i, b)))
    decreases b
  {
    if b > 1 {
      WalkPasses(ring, keep, i, b - 1);
      var front, turns := Walk(ring, keep, i, b - 1), Walk(ring, keep, i, b);
      assert PassesTurn(ring, keep, turns[b - 2], turns[b - 1]);
      forall h | 0 <= h < b - 2 ensures PassesTurn(ring, keep, turns[h], turns[h + 1]) {
        assert PassesTurn(ring, keep, front[h], front[h + 1]);
      }
    }
  }

  /** Whoever seals first seals as many blocks as any other of those in turn. */
  lemma FirstLeads(ring: seq<string>, keep: set<string>, turns: seq<nat>, blocks: seq<string>)
    requires Distinct(ring) && keep <= Names(ring) && Rotates(ring, keep, turns, blocks) && blocks != []
    requires forall b :: b in blocks ==> b in keep
    ensures |blocks| <= |keep| * Count(blocks, blocks[0])
  {
    var v, rest, m := blocks[0], blocks[1..], Tally(blocks, keep);
    assert blocks == [v] + rest && v in keep;
    assert Rotates(ring, keep, turns[1..], rest) by {
      forall h | 0 <= h < |rest| - 1 ensures PassesTurn(ring, keep, turns[1..][h], turns[1..][h + 1]) {
        assert PassesTurn(ring, keep, turns[h + 1], turns[h + 2]);
      }
    }
    forall u | u in keep ensures m[u] <= Count(blocks, v) {
      CountConcat([v], rest, u);
      CountConcat([v], rest, v);
      CountDistinct([v], u);
      CountDistinct([v], v);
      if u != v {
        FairShare(ring, keep, turns[1..], rest, v, u);
      }
    }
    TallySums(blocks, keep);
    SumBounds(m, keep, 0, Count(blocks, v));
  }
}
