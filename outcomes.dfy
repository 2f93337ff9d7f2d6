/** The failure vocabulary shared by the model: Python's optional values and the
    exceptions the modelled code lets escape, as plain data. */
module Outcomes {

  datatype Option<T> = None | Some(value: T) {
    function GetOr(default: T): T {
      match this
      case Some(v) => v
      case None => default
    }
  }

  /** The built-in exceptions the modelled code can raise. `AttributeError` stands
      for a missing sub-element of a tagged statement node (`None.contents`);
      `TypeError` stands for indexing the `None` an unknown institution name looks up
      to; `OverflowError` is what `datetime.date` raises for an argument that does not
      fit a C `int`. */
  datatype PyError = ValueError | IndexError | KeyError | AttributeError | TypeError | OverflowError

  /** A Python call either returns a value or raises one of the exceptions above. */
  datatype Result<T> = Ok(value: T) | Err(error: PyError)

  /** `[f(x) for x in xs]`: one result per element, in order. */
  function MapSeq<A, B>(f: A -> B, xs: seq<A>): (r: seq<B>)
    ensures |r| == |xs| && forall k :: 0 <= k < |xs| ==> r[k] == f(xs[k])
  {
    if xs == [] then []
    else
      var rest := MapSeq(f, xs[1..]);
      assert forall k :: 1 <= k < |xs| ==> xs[k] == xs[1..][k - 1];
      [f(xs[0])] + rest
  }

  /** The comprehension `[f(x) for x in xs]` over a conversion that may raise: every
      result in order, or `None` as soon as one conversion fails. */
  function MapAll<A, B>(f: A -> Option<B>, xs: seq<A>): (r: Option<seq<B>>)
    ensures r.Some? <==> forall k :: 0 <= k < |xs| ==> f(xs[k]).Some?
    ensures r.Some? ==> |r.value| == |xs| && forall k :: 0 <= k < |xs| ==> f(xs[k]) == Some(r.value[k])
  {
    if xs == [] then Some([])
    else
      match f(xs[0])
      case None => None
      case Some(v) =>
        match MapAll(f, xs[1..])
        case None => None
        case Some(vs) => Some([v] + vs)
  }
}
