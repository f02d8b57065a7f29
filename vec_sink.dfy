/**
 * `VecSink`, the effect collector shared by the three firmware variants:
 * it records every effect it is given, in order, and converts them all at
 * the end.
 */
module VecSink {
  import opened Wrappers

  /** `collect`: each effect converted in order; the first failure is the result. */
  function CollectAll<E, T, X>(effects: seq<E>, convert: E -> Result<T, X>): (r: Result<seq<T>, X>)
    ensures r.Ok? <==> forall i | 0 <= i < |effects| :: convert(effects[i]).Ok?
    ensures r.Ok? ==> |r.value| == |effects| && forall i | 0 <= i < |effects| :: r.value[i] == convert(effects[i]).value
  {
    if effects == [] then Ok([])
    else
      match convert(effects[0])
      case Err(x) => Err(x)
      case Ok(t) =>
        var rest := CollectAll(effects[1..], convert);
        if rest.Err? then Err(rest.error) else Ok([t] + rest.value)
  }

  /** A failed `collect` reports the error of the first effect that does not convert. */
  lemma {:induction false} CollectFailsFirst<E, T, X>(effects: seq<E>, convert: E -> Result<T, X>)
    requires CollectAll(effects, convert).Err?
    ensures exists i | 0 <= i < |effects| :: FirstFailure(effects, convert, i) && CollectAll(effects, convert).error == convert(effects[i]).error
    decreases |effects|
  {
    if convert(effects[0]).Err? {
      assert FirstFailure(effects, convert, 0);
    } else {
      CollectFailsFirst(effects[1..], convert);
      var i :| 0 <= i < |effects[1..]| && FirstFailure(effects[1..], convert, i) && CollectAll(effects[1..], convert).error == convert(effects[1..][i]).error;
      assert FirstFailure(effects, convert, i + 1);
    }
  }

  /** Effect `i` is the first whose conversion fails. */
  predicate FirstFailure<E, T, X>(effects: seq<E>, convert: E -> Result<T, X>, i: nat)
  {
    i < |effects| && convert(effects[i]).Err? && forall j | 0 <= j < i :: convert(effects[j]).Ok?
  }

  class VecSink<E> {
    var effects: seq<E>

    /** `new`: no effects. */
    constructor()
      ensures effects == []
    {
      effects := [];
    }

    method Begin()
      modifies this
      ensures effects == old(effects)
    {
    }

    /** `consume`: the effect goes at the end. */
    method Consume(effect: E)
      modifies this
      ensures effects == old(effects) + [effect]
    {
      effects := effects + [effect];
    }

    /** `rollback` keeps what was consumed. */
    method Rollback()
      modifies this
      ensures effects == old(effects)
    {
    }

    method Commit()
      modifies this
      ensures effects == old(effects)
    {
    }
  }

  /** Consuming a sequence of effects one by one and collecting them converts exactly that sequence. */
  lemma {:induction false} CollectAppend<E, T, X>(effects: seq<E>, e: E, convert: E -> Result<T, X>)
    requires CollectAll(effects, convert).Ok? && convert(e).Ok?
    ensures CollectAll(effects + [e], convert) == Ok(CollectAll(effects, convert).value + [convert(e).value])
  {
    var all := effects + [e];
    forall i | 0 <= i < |all|
      ensures convert(all[i]).Ok?
    {
      if i < |effects| {
        assert all[i] == effects[i];
      }
    }
    var r := CollectAll(all, convert).value;
    var expected := CollectAll(effects, convert).value + [convert(e).value];
    assert |r| == |expected|;
    forall i | 0 <= i < |r|
      ensures r[i] == expected[i]
    {
      if i < |effects| {
        assert all[i] == effects[i];
      }
    }
    assert r == expected;
  }
}
