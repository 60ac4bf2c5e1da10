/** Failure-carrying results for the pipelines. Each error constructor names
    the Python exception the source would raise at that point. */
module Wrappers {

  datatype Option<+T> = None | Some(value: T)

  datatype Error =
    | MissingKey(key: string)      // KeyError on a dict lookup
    | WrongType(key: string)       // AttributeError / TypeError: field of the wrong kind
    | BadDate(text: string)        // ValueError raised by strptime
    | Unreadable(name: string)     // pdfplumber or ZipFile could not open the bytes
    | UnserialisableKey            // json.dump refusing a non-string dict key

  datatype Result<+T> = Ok(value: T) | Err(error: Error) {
    predicate IsFailure() {
      Err?
    }

    function PropagateFailure<U>(): Result<U>
      requires Err?
    {
      Err(error)
    }

    function Extract(): T
      requires Ok?
    {
      value
    }
  }

  /** Apply `f` to every element in order, stopping at the first failure. */
  function MapAll<A, B>(s: seq<A>, f: A -> Result<B>): (r: Result<seq<B>>)
    ensures r.Ok? <==> forall i :: 0 <= i < |s| ==> f(s[i]).Ok?
    ensures r.Ok? ==> |r.value| == |s| && forall i :: 0 <= i < |s| ==> r.value[i] == f(s[i]).value
    ensures r.Err? ==> exists i :: 0 <= i < |s| && f(s[i]).Err? && r.error == f(s[i]).error
                                 && forall j :: 0 <= j < i ==> f(s[j]).Ok?
  {
    if |s| == 0 then Ok([])
    else
      var head :- f(s[0]);
      assert forall i :: 1 <= i < |s| ==> s[i] == s[1..][i - 1];
      var tail :- MapAll(s[1..], f);
      Ok([head] + tail)
  }
}
