/** What holds of an operation along every valid history, whoever wrote it. */
module ResumeHistory {
  import opened Wrappers
  import opened ResumeSchema

  function EffectAt(h: History, i: nat, op: string): Option<Effect>
    requires i < |h|
  {
    FindEffect(h[i].state.effects, op)
  }

  /** The status an operation has in the current checkpoint, if it is known at all. */
  function CurrentStatus(h: History, op: string): Option<EffectStatus> {
    var e := FindEffect(EffectsOf(Last(h)), op);
    if e.Some? then Some(e.value.status) else None
  }

  lemma AdjacentPairIsValid(r: Rules, h: History, i: nat)
    requires ValidHistory(r, h) && i + 1 < |h|
    ensures ValidTransition(Some(h[i]), h[i + 1])
  {
    assert ValidAt(r, h, i + 1);
    assert Last(h[..i + 1]) == Some(h[i]);
  }

  /** An operation never disappears, its binding never changes, and COMMITTED is absorbing. */
  lemma {:induction false} OperationPersists(r: Rules, h: History, i: nat, j: nat, op: string)
    requires ValidHistory(r, h) && i <= j < |h| && EffectAt(h, i, op).Some?
    ensures EffectAt(h, j, op).Some? && SameBinding(EffectAt(h, i, op).value, EffectAt(h, j, op).value)
    ensures EffectAt(h, i, op).value.status == Committed ==> EffectAt(h, j, op) == EffectAt(h, i, op)
    decreases j - i
  {
    if i < j {
      AdjacentPairIsValid(r, h, i);
      assert KeepsEffect(EffectAt(h, i, op).value, h[i + 1]);
      OperationPersists(r, h, i + 1, j, op);
    }
  }

  /** Every operation first appears as PREPARED, recorded by an `effect_prepared` event. */
  lemma {:induction false} FirstAppearsPrepared(r: Rules, h: History, j: nat, op: string) returns (i: nat)
    requires ValidHistory(r, h) && j < |h| && EffectAt(h, j, op).Some?
    ensures i <= j && EffectAt(h, i, op).Some?
    ensures EffectAt(h, i, op).value.status == Prepared && h[i].trigger == EffectPrepared
    ensures forall k :: 0 <= k < i ==> EffectAt(h, k, op).None?
  {
    if j > 0 && EffectAt(h, j - 1, op).Some? {
      i := FirstAppearsPrepared(r, h, j - 1, op);
    } else {
      i := j;
      assert ValidAt(r, h, j);
      assert j > 0 ==> Last(h[..j]) == Some(h[j - 1]);
      forall k | 0 <= k < j
        ensures EffectAt(h, k, op).None?
      {
        if EffectAt(h, k, op).Some? {
          OperationPersists(r, h, k, j - 1, op);
        }
      }
    }
  }

  lemma ConfirmedStep(r: Rules, h: History, j: nat, op: string)
    requires ValidHistory(r, h) && j < |h| && EffectAt(h, j, op).Some? && Confirmed(EffectAt(h, j, op).value.status)
    ensures 0 < j && EffectAt(h, j - 1, op).Some? && EffectAt(h, j, op).value.reference.Some?
    ensures
      || EffectAt(h, j - 1, op) == EffectAt(h, j, op)
      || (h[j].trigger == EffectReadback && EffectAt(h, j - 1, op).value.status in {Prepared, Unknown})
  {
    var e := EffectAt(h, j, op).value;
    assert ValidAt(r, h, j);
    assert e in h[j].state.effects;
    if j > 0 {
      AdjacentPairIsValid(r, h, j - 1);
      if EffectAt(h, j - 1, op).Some? {
        assert KeepsEffect(EffectAt(h, j - 1, op).value, h[j]);
      }
    }
  }

  /** COMMITTED and NOT_APPLIED are entered from PREPARED or UNKNOWN, only by a readback
      event, and carry the reference of that readback until they are left. */
  lemma {:induction false} ConfirmedByReadback(r: Rules, h: History, j: nat, op: string) returns (i: nat)
    requires ValidHistory(r, h) && j < |h| && EffectAt(h, j, op).Some? && Confirmed(EffectAt(h, j, op).value.status)
    ensures 0 < i <= j && h[i].trigger == EffectReadback
    ensures EffectAt(h, i - 1, op).Some? && EffectAt(h, i - 1, op).value.status in {Prepared, Unknown}
    ensures forall k :: i <= k <= j ==> EffectAt(h, k, op) == EffectAt(h, j, op)
    ensures EffectAt(h, j, op).value.reference.Some?
  {
    ConfirmedStep(r, h, j, op);
    if EffectAt(h, j - 1, op) == EffectAt(h, j, op) {
      i := ConfirmedByReadback(r, h, j - 1, op);
    } else {
      i := j;
    }
  }
}
