/** The history of a concurrent service: the calls it has answered, in order, with their replies. */
module Serial {

  datatype Finished<O, R> = Finished(op: O, reply: R)

  function Calls<O, R>(done: seq<Finished<O, R>>): (ops: seq<O>)
    ensures |ops| == |done|
  {
    seq(|done|, k requires 0 <= k < |done| => done[k].op)
  }

  /** One more answer leaves the calls before it as they were. */
  lemma CallsSnoc<O, R>(done: seq<Finished<O, R>>, f: Finished<O, R>)
    ensures Calls(done + [f]) == Calls(done) + [f.op]
    ensures forall k :: 0 <= k <= |done| ==> Calls(done + [f])[..k] == Calls(done)[..k]
  {
  }
}
