/** Failure-carrying results. Every Python exception that the modelled code can
    raise becomes a `Fail` carrying the kind of exception. */
module Wrappers {

  /** The exceptions the modelled code can raise. */
  datatype Error =
    | IndexError                 // a list or string subscript out of range
    | ValueError                 // `int(...)` on text that is not an integer
    | FtpError(path: string)     // `ftp.cwd(path)` to a directory the server does not have
    | ConnectError(host: string) // `ftplib.FTP(host)` to a host that does not answer
    | MissingConf(name: string)  // `open(...)` of a module file that does not exist

  datatype Option<+T> = None | Some(value: T)

  datatype Result<+T> = Ok(value: T) | Fail(error: Error) {

    predicate IsFailure() {
      Fail?
    }

    function PropagateFailure<U>(): Result<U>
      requires Fail?
    {
      Fail(error)
    }

    function Extract(): T
      requires Ok?
    {
      value
    }
  }

  /** `f` applied to each element in turn; the first failure ends it. */
  function MapResult<T, U>(s: seq<T>, f: T -> Result<U>): (r: Result<seq<U>>)
    ensures r.Ok? ==> |r.value| == |s|
  {
    if |s| == 0 then Ok([])
    else
      var init :- MapResult(s[..|s| - 1], f);
      var last :- f(s[|s| - 1]);
      Ok(init + [last])
  }

  /** The mapping succeeds exactly when `f` succeeds on every element, and then
      holds each element's image at its position; otherwise it fails as `f`
      does on some element. */
  lemma {:induction false} MapResultMeaning<T, U>(s: seq<T>, f: T -> Result<U>)
    ensures MapResult(s, f).Ok? <==> forall i :: 0 <= i < |s| ==> f(s[i]).Ok?
    ensures MapResult(s, f).Ok? ==>
              forall i :: 0 <= i < |s| ==> MapResult(s, f).value[i] == f(s[i]).value
    ensures MapResult(s, f).Fail? ==>
              exists i :: 0 <= i < |s| && f(s[i]) == Fail(MapResult(s, f).error)
  {
    if |s| > 0 {
      var init := s[..|s| - 1];
      MapResultMeaning(init, f);
      assert forall i :: 0 <= i < |init| ==> init[i] == s[i];
    }
  }

  /** One more element: the mapping so far, then `f` on that element. */
  lemma MapResultStep<T, U>(s: seq<T>, i: nat, f: T -> Result<U>)
    requires i < |s|
    ensures MapResult(s[..i + 1], f) ==
              match MapResult(s[..i], f)
              case Fail(e) => Fail(e)
              case Ok(acc) =>
                match f(s[i])
                case Fail(e) => Fail(e)
                case Ok(v) => Ok(acc + [v])
  {
    assert s[..i + 1][..i] == s[..i];
  }

  /** The first failure is the failure of the whole mapping. */
  lemma {:induction false} MapResultSticks<T, U>(s: seq<T>, n: nat, f: T -> Result<U>)
    requires n <= |s| && MapResult(s[..n], f).Fail?
    ensures MapResult(s, f) == MapResult(s[..n], f)
    decreases |s| - n
  {
    if n < |s| {
      MapResultStep(s, n, f);
      MapResultSticks(s, n + 1, f);
    } else {
      assert s[..n] == s;
    }
  }
}
