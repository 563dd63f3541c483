/** Filling a stretch of a buffer from left to right. */
module Buffers {
  import opened Bits

  /** `now` is `was` with `done` written over it from `start` on. */
  ghost predicate Filled(now: bytes, was: bytes, start: nat, done: bytes) {
    && start + |done| <= |was|
    && now == was[..start] + done + was[start + |done|..]
  }

  lemma FilledNone(was: bytes, start: nat)
    requires start <= |was|
    ensures Filled(was, was, start, [])
  {
  }

  lemma FilledStep(now: bytes, was: bytes, start: nat, done: bytes, v: byte)
    requires Filled(now, was, start, done) && start + |done| < |was|
    ensures |now| == |was|
    ensures Filled(now[start + |done| := v], was, start, done + [v])
  {
  }

  lemma FilledSize(now: bytes, was: bytes, start: nat, done: bytes)
    requires Filled(now, was, start, done)
    ensures |now| == |was| && start + |done| <= |was|
    ensures now[start..start + |done|] == done
    ensures forall i | 0 <= i < |was| && !(start <= i < start + |done|) :: now[i] == was[i]
  {
  }

  /** Two adjacent stretches make one. */
  lemma FilledJoin(now: bytes, mid: bytes, was: bytes, start: nat, a: bytes, b: bytes)
    requires Filled(mid, was, start, a) && Filled(now, mid, start + |a|, b)
    ensures Filled(now, was, start, a + b)
  {
    assert mid[..start + |a|] == was[..start] + a;
    assert mid[start + |a| + |b|..] == was[start + |a| + |b|..];
  }

  /** `buffer[offset++] = v`. */
  method Put(buffer: array<byte>, offset: nat, v: byte, ghost was: bytes, ghost start: nat, ghost done: bytes)
    requires Filled(buffer[..], was, start, done) && offset == start + |done| < |was|
    modifies buffer
    ensures Filled(buffer[..], was, start, done + [v])
  {
    FilledSize(buffer[..], was, start, done);
    FilledStep(buffer[..], was, start, done, v);
    ghost var now := buffer[..];
    buffer[offset] := v;
    assert buffer[..] == now[offset := v];
  }
}
