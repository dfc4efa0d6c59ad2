/** The reliable fetcher: how one HTTPS attempt is classified, and the retry
    loop that repeats attempts until one of them is definitive.

    An attempt is abstracted to what the mirror observes of it: either the
    request itself failed (connection, DNS, TLS, socket), or a response
    arrived with some status code and, for a 200, the body stream either
    reached the end of the local file or raised an error first. */
module Fetcher {

  datatype Attempt =
    | Response(statusCode: int, streamFailed: bool)
    | RequestError

  /** The pair `{status, result}` that one attempt resolves with. */
  datatype Reply = Reply(status: bool, result: bool)

  /** What the retry loop returns, together with the number of attempts it used. */
  datatype Fetched = Fetched(result: bool, tries: nat)

  /** A 200 response: the destination file is opened for writing. */
  predicate Opens(a: Attempt) {
    a.Response? && a.statusCode == 200
  }

  /** The file was written to its end: the resource is present locally. */
  predicate Delivered(a: Attempt) {
    Opens(a) && !a.streamFailed
  }

  /** Failures of the transport, as opposed to an answer of the server. */
  predicate TransportFailure(a: Attempt) {
    a.RequestError? || (Opens(a) && a.streamFailed)
  }

  /** One attempt. A definitive answer has `status` set; `result` is set
      exactly when the body was delivered. A non-200 answer is definitive
      and negative whatever happens to its (discarded) body. */
  function GetRemoteFile(a: Attempt): (r: Reply)
    ensures r.status <==> !TransportFailure(a)
    ensures r.result <==> Delivered(a)
    ensures a.Response? && a.statusCode != 200 ==> r == Reply(true, false)
  {
    match a
    case RequestError => Reply(false, false)
    case Response(code, streamFailed) =>
      if code == 200 then
        if streamFailed then Reply(false, false) else Reply(true, true)
      else
        Reply(true, false)
  }

  /** A script of attempts on which the unbounded retry stops: it reaches
      an attempt that is not a transport failure. */
  predicate Terminates(attempts: seq<Attempt>)
    decreases |attempts|
  {
    |attempts| > 0 && (!TransportFailure(attempts[0]) || Terminates(attempts[1..]))
  }

  /** The retry loop over a script of attempts: the first attempt whose
      status is set decides the result, every earlier one was a transport
      failure. */
  function Reliable(attempts: seq<Attempt>): (r: Fetched)
    requires Terminates(attempts)
    ensures 1 <= r.tries <= |attempts|
    ensures !TransportFailure(attempts[r.tries - 1])
    ensures forall i :: 0 <= i < r.tries - 1 ==> TransportFailure(attempts[i])
    ensures r.result <==> Delivered(attempts[r.tries - 1])
    decreases |attempts|
  {
    var reply := GetRemoteFile(attempts[0]);
    if reply.status then
      Fetched(reply.result, 1)
    else
      var rest := Reliable(attempts[1..]);
      assert forall i :: 1 <= i < rest.tries ==> attempts[i] == attempts[1..][i - 1];
      Fetched(rest.result, rest.tries + 1)
  }

  /** The do-while loop of the source, one attempt per iteration. */
  method GetRemoteFileReliable(attempts: seq<Attempt>) returns (result: bool, tries: nat)
    requires Terminates(attempts)
    ensures Fetched(result, tries) == Reliable(attempts)
  {
    var ret := GetRemoteFile(attempts[0]);
    tries := 1;
    while !ret.status
      invariant 1 <= tries <= |attempts|
      invariant ret == GetRemoteFile(attempts[tries - 1])
      invariant forall i :: 0 <= i < tries ==> TransportFailure(attempts[i]) || i == tries - 1
      invariant Terminates(attempts[tries - 1..])
      decreases |attempts| - tries
    {
      assert attempts[tries - 1..][1..] == attempts[tries..];
      ret := GetRemoteFile(attempts[tries]);
      tries := tries + 1;
    }
    result := ret.result;
    SameFirstDefinitive(attempts, tries);
  }

  /** The first definitive attempt is unique: any index whose attempt is
      definitive and that follows only transport failures is the one the
      retry loop stops at. */
  lemma {:induction false} SameFirstDefinitive(attempts: seq<Attempt>, k: nat)
    requires 1 <= k <= |attempts|
    requires !TransportFailure(attempts[k - 1])
    requires forall i :: 0 <= i < k - 1 ==> TransportFailure(attempts[i])
    ensures Terminates(attempts)
    ensures Reliable(attempts) == Fetched(Delivered(attempts[k - 1]), k)
    decreases k
  {
    if k > 1 {
      assert forall i :: 0 <= i < k - 2 ==> attempts[1..][i] == attempts[i + 1];
      SameFirstDefinitive(attempts[1..], k - 1);
    }
  }

  /** N transport failures followed by a delivered body: the loop reports
      success after exactly N + 1 attempts. */
  lemma RetryUntilSuccess(attempts: seq<Attempt>, n: nat)
    requires n < |attempts|
    requires forall i :: 0 <= i < n ==> TransportFailure(attempts[i])
    requires Delivered(attempts[n])
    ensures Terminates(attempts)
    ensures Reliable(attempts) == Fetched(true, n + 1)
  {
    SameFirstDefinitive(attempts, n + 1);
  }

  /** A non-200 answer on the first attempt ends the loop at once with a
      negative result: absence is never retried. */
  lemma AbsenceEndsRetry(attempts: seq<Attempt>)
    requires |attempts| > 0
    requires attempts[0].Response? && attempts[0].statusCode != 200
    ensures Terminates(attempts)
    ensures Reliable(attempts) == Fetched(false, 1)
  {
    SameFirstDefinitive(attempts, 1);
  }

  /** Whether some attempt among the first `n` opened the destination file. */
  predicate Opened(attempts: seq<Attempt>, n: nat)
    requires n <= |attempts|
  {
    exists i :: 0 <= i < n && Opens(attempts[i])
  }

  /** When the loop reports absence, a destination file was opened exactly
      when some attempt before the last was a 200 whose stream broke: the
      last attempt, being definitive and negative, never opens it. */
  lemma PartialFileNeedsBrokenStream(attempts: seq<Attempt>)
    requires Terminates(attempts)
    ensures var r := Reliable(attempts);
      !r.result ==>
        (Opened(attempts, r.tries) <==>
         exists i :: 0 <= i < r.tries - 1 && Opens(attempts[i]) && attempts[i].streamFailed)
  {
    var r := Reliable(attempts);
    if !r.result && Opened(attempts, r.tries) {
      var i :| 0 <= i < r.tries && Opens(attempts[i]);
      // the last attempt is definitive and negative, so it opened nothing
      assert i != r.tries - 1;
      assert TransportFailure(attempts[i]);
    }
  }

  /** A 200 whose stream breaks, then a 404: the loop reports absence, yet
      the file opened by the first attempt is still on disk. */
  lemma AbsenceCanLeavePartialFile()
    ensures var attempts := [Response(200, true), Response(404, false)];
      && Terminates(attempts)
      && Reliable(attempts) == Fetched(false, 2)
      && Opened(attempts, 2)
  {
    var attempts := [Response(200, true), Response(404, false)];
    SameFirstDefinitive(attempts, 2);
    PartialFileNeedsBrokenStream(attempts);
    assert Opens(attempts[0]) && attempts[0].streamFailed;
  }
}
