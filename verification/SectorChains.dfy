/** Sector chains in a file allocation table: walking, uniqueness, absence of cycles, disjointness. */
module SectorChains {
  import opened Common

  const ENDOFCHAIN: nat := 0xFFFF_FFFE
  const FREESECT: nat := 0xFFFF_FFFF
  const FATSECT: nat := 0xFFFF_FFFD
  const DIFSECT: nat := 0xFFFF_FFFC

  /** `p` lists, in order, the sectors visited from `start` until the end-of-chain mark. */
  ghost predicate IsChain(fat: seq<nat>, start: nat, p: seq<nat>)
    decreases |p|
  {
    if p == [] then start == ENDOFCHAIN
    else start == p[0] && start != ENDOFCHAIN && start < |fat| && IsChain(fat, fat[start], p[1..])
  }

  /** The sector reached after `i` steps along chain `p`. */
  function At(p: seq<nat>, i: nat): nat
    requires i <= |p|
  {
    if i < |p| then p[i] else ENDOFCHAIN
  }

  lemma {:induction false} ChainUnique(fat: seq<nat>, start: nat, p: seq<nat>, q: seq<nat>)
    requires IsChain(fat, start, p) && IsChain(fat, start, q)
    ensures p == q
    decreases |p|
  {
    if p != [] && q != [] {
      ChainUnique(fat, fat[start], p[1..], q[1..]);
      assert p == [p[0]] + p[1..] && q == [q[0]] + q[1..];
    }
  }

  lemma {:induction false} ChainSuffix(fat: seq<nat>, start: nat, p: seq<nat>, i: nat)
    requires IsChain(fat, start, p) && i <= |p|
    ensures IsChain(fat, At(p, i), p[i..])
    decreases i
  {
    if i == 0 {
      assert p[0..] == p;
    } else {
      ChainSuffix(fat, fat[start], p[1..], i - 1);
      assert p[1..][i - 1..] == p[i..];
      assert At(p[1..], i - 1) == At(p, i);
    }
  }

  /** Each sector of a chain is in range and points to the next one. */
  lemma ChainStep(fat: seq<nat>, start: nat, p: seq<nat>, i: nat)
    requires IsChain(fat, start, p) && i < |p|
    ensures p[i] < |fat| && p[i] != ENDOFCHAIN && fat[p[i]] == At(p, i + 1)
  {
    ChainSuffix(fat, start, p, i);
    ChainSuffix(fat, start, p, i + 1);
  }

  /** A chain that reaches the end mark never visits a sector twice. */
  lemma ChainDistinct(fat: seq<nat>, start: nat, p: seq<nat>)
    requires IsChain(fat, start, p)
    ensures Distinct(p)
  {
    forall i, j | 0 <= i < j < |p| ensures p[i] != p[j] {
      if p[i] == p[j] {
        ChainSuffix(fat, start, p, i);
        ChainSuffix(fat, start, p, j);
        ChainUnique(fat, p[i], p[i..], p[j..]);
      }
    }
  }

  /** So a terminating chain has at most one entry per FAT slot. */
  lemma ChainBounded(fat: seq<nat>, start: nat, p: seq<nat>)
    requires IsChain(fat, start, p)
    ensures |p| <= |fat|
  {
    ChainDistinct(fat, start, p);
    forall i | 0 <= i < |p| ensures p[i] < |fat| {
      ChainStep(fat, start, p, i);
    }
    Pigeonhole(p, |fat|);
  }

  /** No two FAT slots name the same in-range successor. */
  ghost predicate NoCrossLinks(fat: seq<nat>) {
    forall i, j :: 0 <= i < j < |fat| && fat[i] == fat[j] ==> fat[i] >= |fat|
  }

  ghost predicate NoPredecessor(fat: seq<nat>, head: nat) {
    forall i :: 0 <= i < |fat| ==> fat[i] != head
  }

  ghost predicate Disjoint(p: seq<nat>, q: seq<nat>) {
    forall i, j :: 0 <= i < |p| && 0 <= j < |q| ==> p[i] != q[j]
  }

  lemma {:induction false} NeverMeet(fat: seq<nat>, a: nat, p: seq<nat>, b: nat, q: seq<nat>, i: nat, j: nat)
    requires NoCrossLinks(fat) && NoPredecessor(fat, a) && NoPredecessor(fat, b) && a != b
    requires IsChain(fat, a, p) && IsChain(fat, b, q)
    requires i < |p| && j < |q|
    ensures p[i] != q[j]
    decreases i
  {
    ChainStep(fat, a, p, i);
    if i > 0 { ChainStep(fat, a, p, i - 1); }
    if j > 0 { ChainStep(fat, b, q, j - 1); }
    if i > 0 && j > 0 {
      NeverMeet(fat, a, p, b, q, i - 1, j - 1);
    }
  }

  /** Chains with distinct heads are disjoint in a FAT without cross links, if no slot points at a head. */
  lemma ChainsDisjoint(fat: seq<nat>, a: nat, p: seq<nat>, b: nat, q: seq<nat>)
    requires NoCrossLinks(fat) && NoPredecessor(fat, a) && NoPredecessor(fat, b) && a != b
    requires IsChain(fat, a, p) && IsChain(fat, b, q)
    ensures Disjoint(p, q)
  {
    forall i, j | 0 <= i < |p| && 0 <= j < |q| ensures p[i] != q[j] {
      NeverMeet(fat, a, p, b, q, i, j);
    }
  }
}
