/** Types and arithmetic shared by all components. */
module Common {

  /** One byte, as an integer. */
  type byte = b: int | 0 <= b < 256

  datatype Option<+T> = None | Some(value: T)

  /** The source's exceptions become the Err branch. */
  datatype Result<+T, +E> = Ok(value: T) | Err(error: E)

  /** How serious a malformation is, and the level from which it is raised as an error. */
  datatype Severity = Unsure | Potential | Incorrect | Fatal {
    function Rank(): nat {
      match this
      case Unsure => 10
      case Potential => 20
      case Incorrect => 30
      case Fatal => 40
    }

    /** `_raise_defect`: is a defect of this severity raised when errors start at `level`? */
    predicate RaisedAt(level: Severity) { Rank() >= level.Rank() }
  }

  function Min(a: int, b: int): int {
    if a <= b then a else b
  }

  function Max(a: int, b: int): int {
    if a >= b then a else b
  }

  /** `s[1:-1]`: without the first and the last byte. */
  function Inner(s: seq<byte>): seq<byte> {
    if |s| < 2 then [] else s[1..|s| - 1]
  }

  /** Number of blocks of `b` bytes that hold `a` bytes. */
  function CeilDiv(a: nat, b: nat): nat
    requires b > 0
  {
    (a + (b - 1)) / b
  }

  /** CeilDiv is the least block count whose total size reaches `a`. */
  lemma CeilDivIsLeast(a: nat, b: nat)
    requires b > 0
    ensures CeilDiv(a, b) * b >= a
    ensures a > 0 ==> CeilDiv(a, b) > 0
    ensures a > 0 ==> (CeilDiv(a, b) - 1) * b < a
    ensures a == 0 ==> CeilDiv(a, b) == 0
  {
    var q := (a + (b - 1)) / b;
    assert q * b <= a + (b - 1) < q * b + b;
    assert a > 0 ==> (q - 1) * b == q * b - b;
    if a == 0 {
      assert q * b <= b - 1;
      if q > 0 {
        MulMonotone(1, q, b);
      }
    }
  }

  lemma MulMonotone(x: int, y: int, b: nat)
    requires x <= y
    ensures x * b <= y * b
  {
    assert (y - x) * b >= 0;
  }

  lemma StepBlock(k: nat, b: nat)
    requires b > 0
    ensures k < b ==> k / b == 0 && k % b == k
    ensures k >= b ==> k / b == (k - b) / b + 1 && k % b == (k - b) % b
  {
    if k < b {
      assert k == 0 * b + k;
      DivIs(k, b, 0, k);
    } else {
      var q, r := (k - b) / b, (k - b) % b;
      assert k == (q + 1) * b + r;
      DivIs(k, b, q + 1, r);
    }
  }

  lemma DivIs(k: nat, b: nat, q: nat, r: nat)
    requires b > 0 && r < b && k == q * b + r
    ensures k / b == q && k % b == r
  {
    var q', r' := k / b, k % b;
    assert k == q' * b + r';
    if q' < q {
      MulMonotone(q' + 1, q, b);
    } else if q < q' {
      MulMonotone(q + 1, q', b);
    }
  }

  /** No two positions of `p` hold the same value. */
  ghost predicate Distinct<T>(p: seq<T>) {
    forall i, j :: 0 <= i < j < |p| ==> p[i] != p[j]
  }

  /** Pigeonhole principle: distinct values below `n` fill at most `n` positions. */
  lemma {:induction false} Pigeonhole(p: seq<nat>, n: nat)
    requires Distinct(p)
    requires forall i :: 0 <= i < |p| ==> p[i] < n
    ensures |p| <= n
    decreases n
  {
    if p == [] {
      return;
    }
    assert p[0] < n;
    if exists i :: 0 <= i < |p| && p[i] == n - 1 {
      var i :| 0 <= i < |p| && p[i] == n - 1;
      Pigeonhole(p[..i] + p[i + 1..], n - 1);
    } else {
      Pigeonhole(p, n - 1);
    }
  }
}
