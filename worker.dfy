/** The shared user pool and its one-time load (worker/worker.go): up to three
    attempts at GET /nodes/{id}/users, then every record that validates is
    stored under its e-mail. */
module UserPoolWorker {
  import opened Models

  /** The number of attempts before the agent gives up. */
  const MAX_ATTEMPTS: nat := 3

  /** The decoded body of GET /nodes/{id}/users, and whether decoding failed. */
  datatype UserListing = UserListing(users: seq<User>, decodeFailed: bool)

  /** An attempt that the agent accepts: a response with status 200. */
  predicate Succeeded<B>(r: Response<B>) {
    r.Reply? && r.statusCode == STATUS_OK
  }

  /** How initUserPool ended: the pool was filled; Log.Fatal ended the
      process after three failed attempts; or Log.Panic fired on a body that
      did not decode. */
  datatype LoadOutcome = Loaded | FatalExit | ParsePanic

  /** The pool after storing, in order, every record that validates under its
      e-mail: a later record for the same e-mail replaces an earlier one. */
  function FillPool(pool: map<string, User>, records: seq<User>, isEmail: string -> bool): map<string, User>
  {
    if |records| == 0 then pool
    else
      var p := FillPool(pool, records[..|records| - 1], isEmail);
      var u := records[|records| - 1];
      if UserValid(u, isEmail) then p[u.email := u] else p
  }

  /** Every entry is stored under its own e-mail. */
  predicate WellKeyed(pool: map<string, User>) {
    forall k :: k in pool ==> pool[k].email == k
  }

  /** Every entry passes validation. */
  predicate AllValid(pool: map<string, User>, isEmail: string -> bool) {
    forall k :: k in pool ==> UserValid(pool[k], isEmail)
  }

  /** The keys after filling: the old keys and the e-mails of the valid records. */
  lemma {:induction false} FillPoolKeys(pool: map<string, User>, records: seq<User>, isEmail: string -> bool, k: string)
    ensures k in FillPool(pool, records, isEmail) <==>
              k in pool || exists i :: 0 <= i < |records| && UserValid(records[i], isEmail) && records[i].email == k
  {
    if |records| > 0 {
      var front := records[..|records| - 1];
      FillPoolKeys(pool, front, isEmail, k);
      if exists i :: 0 <= i < |front| && UserValid(front[i], isEmail) && front[i].email == k {
        var i :| 0 <= i < |front| && UserValid(front[i], isEmail) && front[i].email == k;
        assert records[i] == front[i];
      }
      if exists i :: 0 <= i < |records| && UserValid(records[i], isEmail) && records[i].email == k {
        var i :| 0 <= i < |records| && UserValid(records[i], isEmail) && records[i].email == k;
        if i < |front| {
          assert front[i] == records[i];
        }
      }
    }
  }

  /** The last valid record for an e-mail is the one the pool keeps. */
  lemma {:induction false} FillPoolLastWins(pool: map<string, User>, records: seq<User>, isEmail: string -> bool, i: nat)
    requires i < |records| && UserValid(records[i], isEmail)
    requires forall j :: i < j < |records| && UserValid(records[j], isEmail) ==> records[j].email != records[i].email
    ensures records[i].email in FillPool(pool, records, isEmail)
    ensures FillPool(pool, records, isEmail)[records[i].email] == records[i]
  {
    var front, last := records[..|records| - 1], records[|records| - 1];
    if i < |records| - 1 {
      forall j | i < j < |front| && UserValid(front[j], isEmail) ensures front[j].email != front[i].email {
        assert records[j] == front[j];
      }
      FillPoolLastWins(pool, front, isEmail, i);
    }
  }

  /** Filling keeps a well-keyed, valid pool well-keyed and valid. */
  lemma {:induction false} FillPoolWellFormed(pool: map<string, User>, records: seq<User>, isEmail: string -> bool)
    requires WellKeyed(pool) && AllValid(pool, isEmail)
    ensures WellKeyed(FillPool(pool, records, isEmail)) && AllValid(FillPool(pool, records, isEmail), isEmail)
  {
    if |records| > 0 {
      FillPoolWellFormed(pool, records[..|records| - 1], isEmail);
    }
  }

  /** The shared pool of principals, keyed by e-mail; init() makes it empty. */
  class UserPool {
    var users: map<string, User>

    constructor ()
      ensures users == map[]
    {
      users := map[];
    }

    /** The fill loop: validate each record, skip it if invalid, store it
        otherwise. */
    method Fill(records: seq<User>, isEmail: string -> bool)
      modifies this
      ensures users == FillPool(old(users), records, isEmail)
    {
      var i := 0;
      while i < |records|
        invariant 0 <= i <= |records|
        invariant users == FillPool(old(users), records[..i], isEmail)
      {
        assert records[..i + 1][..i] == records[..i];
        var u := records[i];
        if UserValid(u, isEmail) {
          users := users[u.email := u];
        }
        i := i + 1;
      }
      assert records[..i] == records;
    }

    /** initUserPool: fetch, give up with Fatal after three failures, panic on
        a body that does not decode, otherwise fill the pool. */
    method InitUserPool(call: nat -> Response<UserListing>, isEmail: string -> bool)
      returns (attempts: nat, outcome: LoadOutcome)
      modifies this
      ensures 1 <= attempts <= MAX_ATTEMPTS
      ensures outcome == FatalExit <==> forall k :: 0 <= k < MAX_ATTEMPTS ==> !Succeeded(call(k))
      ensures outcome != FatalExit ==>
                Succeeded(call(attempts - 1)) && forall k :: 0 <= k < attempts - 1 ==> !Succeeded(call(k))
      ensures outcome == ParsePanic <==> outcome != FatalExit && call(attempts - 1).body.decodeFailed
      ensures outcome == Loaded ==> users == FillPool(old(users), call(attempts - 1).body.users, isEmail)
      ensures outcome != Loaded ==> users == old(users)
    {
      var response;
      attempts, response := FetchUsers(call);
      if !Succeeded(response) {
        return attempts, FatalExit;
      }
      if response.body.decodeFailed {
        return attempts, ParsePanic;
      }
      Fill(response.body.users, isEmail);
      return attempts, Loaded;
    }
  }

  /** The request loop of initUserPool: `call(k)` is the answer to attempt
      k. Each failure (a transport error or a status other than 200) uses up
      one of the three retries; the first success stops the loop. The
      response of the last attempt is returned. */
  method FetchUsers(call: nat -> Response<UserListing>) returns (attempts: nat, response: Response<UserListing>)
    ensures 1 <= attempts <= MAX_ATTEMPTS
    ensures response == call(attempts - 1)
    ensures forall k :: 0 <= k < attempts - 1 ==> !Succeeded(call(k))
    ensures Succeeded(response) || attempts == MAX_ATTEMPTS
  {
    var retries := MAX_ATTEMPTS;
    attempts := 0;
    response := TransportError;
    while retries > 0
      invariant 0 <= retries <= MAX_ATTEMPTS && attempts == MAX_ATTEMPTS - retries
      invariant forall k :: 0 <= k < attempts ==> !Succeeded(call(k))
      invariant attempts > 0 ==> response == call(attempts - 1)
    {
      response := call(attempts);
      attempts := attempts + 1;
      if Succeeded(response) {
        break;
      }
      retries := retries - 1;
    }
  }
}
