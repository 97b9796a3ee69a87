/** Definitions shared by the components of the kernel model. */
module Common {

  datatype Option<+T> = None | Some(value: T)

  type Byte = b: int | 0 <= b < 256

  /** Addition on an unsigned char. */
  function AddByte(x: int, y: int): Byte { (x + y) % 256 }

  /** Slots of the task table. */
  const NR_TASKS: nat := 64

  /** The neighbours of position `i` in a list, as its links should show them. */
  function NextIn(c: seq<nat>, i: nat): Option<nat>
    requires i < |c|
  {
    if i + 1 < |c| then Some(c[i + 1]) else None
  }

  function PrevIn(c: seq<nat>, i: nat): Option<nat>
    requires i < |c|
  {
    if i > 0 then Some(c[i - 1]) else None
  }

  /** Position `i` of a list as a pointer that is NULL at its end. */
  function At(c: seq<nat>, i: nat): Option<nat> { if i < |c| then Some(c[i]) else None }

  ghost predicate NoRepeats(r: seq<nat>) { forall i, j :: 0 <= i < j < |r| ==> r[i] != r[j] }

  /** Distinct numbers below `n` are at most `n`. */
  lemma {:induction false} Pigeonhole(r: seq<nat>, n: nat)
    requires NoRepeats(r) && forall i :: 0 <= i < |r| ==> r[i] < n
    ensures |r| <= n
    decreases n
  {
    assert |r| > 0 ==> r[0] < n;
    if n > 0 {
      if j :| 0 <= j < |r| && r[j] == n - 1 {
        var rest := r[..j] + r[j + 1..];
        assert forall i :: 0 <= i < |rest| ==> rest[i] == r[if i < j then i else i + 1];
        Pigeonhole(rest, n - 1);
      } else {
        Pigeonhole(r, n - 1);
      }
    }
  }

  lemma SubsetSize(a: set<int>, b: set<int>)
    requires a <= b
    ensures |a| <= |b|
  {
    assert b == a + (b - a);
  }
}
