/** `xs.map(x => p(x) ? f(x) : x)`: the update-in-a-list idiom every handler
    of the workspace uses on the documents and on the users. */
module SeqUpdate {

  function MapIf<T>(xs: seq<T>, p: T -> bool, f: T -> T): (ys: seq<T>)
    ensures |ys| == |xs|
    ensures forall i :: 0 <= i < |xs| && p(xs[i]) ==> ys[i] == f(xs[i])
    ensures forall i :: 0 <= i < |xs| && !p(xs[i]) ==> ys[i] == xs[i]
  {
    if xs == [] then []
    else [if p(xs[0]) then f(xs[0]) else xs[0]] + MapIf(xs[1..], p, f)
  }
}
