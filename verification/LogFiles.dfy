/** The active file and its four archives, and rotation as single file operations. */
module LogFiles {
  import opened Wrappers

  /** Index 0 is the active file `events.jsonl`; index i is the archive `events.jsonl.i`. */
  type Slots<T> = s: seq<Option<T>> | |s| == 5 witness [None, None, None, None, None]

  function Move<T>(s: Slots<T>, from: nat, to: nat): Slots<T>
    requires from < 5 && to < 5
  {
    if s[from].None? then s else s[to := s[from]][from := None]
  }

  /** Operation 0 removes the oldest archive; operation k renames file 4 - k to 5 - k. */
  function RotateStep<T>(s: Slots<T>, k: nat): Slots<T>
    requires k < 5
  {
    if k == 0 then s[4 := None] else Move(s, 4 - k, 5 - k)
  }

  /** The disk after the first k operations of a rotation. */
  function RotatePrefix<T>(s: Slots<T>, k: nat): Slots<T>
    requires k <= 5
  {
    if k == 0 then s else RotateStep(RotatePrefix(s, k - 1), k - 1)
  }

  /** Every rename of a rotation, from any disk, moves to a free name. */
  lemma {:induction false} RotationNeverOverwrites<T>(s: Slots<T>, k: nat)
    requires 1 <= k <= 5
    ensures RotatePrefix(s, k)[5 - k].None?
    ensures forall i :: 0 <= i < 5 - k ==> RotatePrefix(s, k)[i] == s[i]
  {
    if k > 1 {
      RotationNeverOverwrites(s, k - 1);
    } else {
      assert RotatePrefix(s, 0) == s;
    }
  }
}
