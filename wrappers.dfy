/** Optional values (Java's null) and outcomes that may fail (Java's thrown exceptions). */
module Wrappers {

  /** `None` stands for a Java `null`. */
  datatype Option<+T> = None | Some(value: T)

  /** `Err` carries the message of the exception the Java code throws. */
  datatype Result<+T> = Ok(value: T) | Err(msg: string)

  /** Evaluating a sequence of steps in order, as a loop or a stream does, where the first
      step that throws ends the whole: the values of all steps, or the first failure. */
  function Collect<T>(rs: seq<Result<T>>): (r: Result<seq<T>>)
    ensures r.Ok? ==> |r.value| == |rs|
  {
    if rs == [] then Ok([])
    else
      match Collect(rs[..|rs| - 1])
      case Err(e) => Err(e)
      case Ok(vs) =>
        match rs[|rs| - 1]
        case Err(e) => Err(e)
        case Ok(v) => Ok(vs + [v])
  }

  /** The whole succeeds exactly when every step does, and then holds their values in order. */
  lemma {:induction false} CollectEach<T>(rs: seq<Result<T>>)
    ensures Collect(rs).Ok? <==> forall k :: 0 <= k < |rs| ==> rs[k].Ok?
    ensures Collect(rs).Ok? ==> forall k :: 0 <= k < |rs| ==> Collect(rs).value[k] == rs[k].value
  {
    if rs != [] {
      var init := rs[..|rs| - 1];
      CollectEach(init);
      assert forall k :: 0 <= k < |init| ==> init[k] == rs[k];
    }
  }

  /** Steps that all succeed with the given values collect to exactly those values. */
  lemma CollectAll<T>(rs: seq<Result<T>>, vs: seq<T>)
    requires |rs| == |vs| && forall k :: 0 <= k < |rs| ==> rs[k] == Ok(vs[k])
    ensures Collect(rs) == Ok(vs)
  {
    CollectEach(rs);
    var r := Collect(rs).value;
    assert forall k :: 0 <= k < |rs| ==> r[k] == vs[k];
    assert r == vs;
  }

  /** A failure fails the whole with the message of the first failing step. */
  lemma {:induction false} CollectFirstFailure<T>(rs: seq<Result<T>>, i: nat)
    requires i < |rs| && rs[i].Err?
    requires forall k :: 0 <= k < i ==> rs[k].Ok?
    ensures Collect(rs) == Err(rs[i].msg)
    decreases |rs|
  {
    var n := |rs| - 1;
    var init := rs[..n];
    if i < n {
      assert init[i] == rs[i];
      CollectFirstFailure(init, i);
    } else {
      CollectEach(init);
    }
  }

  /** One more step extends the values so far, or fails the whole. */
  lemma CollectStep<T>(rs: seq<Result<T>>, i: nat, vs: seq<T>)
    requires i < |rs| && Collect(rs[..i]) == Ok(vs)
    ensures Collect(rs[..i + 1]) == if rs[i].Ok? then Ok(vs + [rs[i].value]) else Err(rs[i].msg)
  {
    assert rs[..i + 1][..i] == rs[..i];
  }
}
