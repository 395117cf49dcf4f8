/** Usage accounting (worker/stats.go): the collector reads every pooled
    principal's traffic from the engine, and the sender adds each non-zero
    sample to the principal's CurrentTraffic in the shared pool and reports
    the updated record. */
module StatsWorker {
  import opened Models
  import opened V2Ray
  import opened StatsClient
  import opened ServiceDiff
  import opened UserPoolWorker

  // ---------------------------------------------------------------------
  // Sender: syncStats
  // ---------------------------------------------------------------------

  /** The pool and the records sent with PATCH /users/{username}, in order. */
  datatype Ledger = Ledger(users: map<string, User>, patches: seq<User>)

  /** One sample: zero traffic is skipped; otherwise the principal's counter
      grows by the sample in uint64 arithmetic and the record is reported;
      an e-mail missing from the pool dereferences nil (None). */
  function Charge(ledger: Ledger, sample: Stats): Option<Ledger> {
    if sample.traffic == 0 then Some(ledger)
    else if sample.email !in ledger.users then None
    else
      var u := ledger.users[sample.email];
      var charged := u.(currentTraffic := Add64(u.currentTraffic, sample.traffic));
      Some(Ledger(ledger.users[sample.email := charged], ledger.patches + [charged]))
  }

  /** The samples, charged in order, starting from `pool` with nothing sent. */
  function Accumulate(pool: map<string, User>, samples: seq<Stats>): Option<Ledger> {
    if |samples| == 0 then Some(Ledger(pool, []))
    else
      match Accumulate(pool, samples[..|samples| - 1])
      case None => None
      case Some(ledger) => Charge(ledger, samples[|samples| - 1])
  }

  /** The total traffic the samples report for `email`. */
  function SumFor(samples: seq<Stats>, email: string): nat {
    if |samples| == 0 then 0
    else
      var last := samples[|samples| - 1];
      SumFor(samples[..|samples| - 1], email) + (if last.email == email then last.traffic else 0)
  }

  /** The samples with non-zero traffic. */
  function NonZero(samples: seq<Stats>): seq<Stats> {
    if |samples| == 0 then []
    else
      var last := samples[|samples| - 1];
      NonZero(samples[..|samples| - 1]) + (if last.traffic != 0 then [last] else [])
  }

  /** One sample: zero traffic changes nothing; otherwise only the named
      principal's CurrentTraffic moves, by the sample in uint64 arithmetic,
      the key set stays, and the charged record is reported. */
  lemma ChargeTouchesOneCounter(ledger: Ledger, sample: Stats)
    ensures sample.traffic == 0 ==> Charge(ledger, sample) == Some(ledger)
    ensures Charge(ledger, sample).None? <==> sample.traffic != 0 && sample.email !in ledger.users
    ensures Charge(ledger, sample).Some? ==>
              var after := Charge(ledger, sample).value;
              after.users.Keys == ledger.users.Keys
              && (forall k :: k in ledger.users && k != sample.email ==> after.users[k] == ledger.users[k])
              && (sample.email in ledger.users ==>
                    var u := ledger.users[sample.email];
                    var v := after.users[sample.email];
                    v.email == u.email && v.username == u.username && v.maxTraffic == u.maxTraffic
                    && v.currentTraffic == Add64(u.currentTraffic, sample.traffic))
    ensures Charge(ledger, sample).Some? && sample.traffic != 0 ==>
              Charge(ledger, sample).value.patches ==
                ledger.patches + [Charge(ledger, sample).value.users[sample.email]]
  {
  }

  /** Adding modulo 2^64 twice is adding the sum modulo 2^64. */
  lemma AddModTwice(a: nat, t: nat)
    ensures ((a % U64_MODULUS) + t) % U64_MODULUS == (a + t) % U64_MODULUS
  {
    var q := a / U64_MODULUS;
    assert a == q * U64_MODULUS + a % U64_MODULUS;
    ShiftByMultiple((a % U64_MODULUS) + t, q);
  }

  /** Adding a multiple of the modulus does not change the remainder. */
  lemma {:induction false} ShiftByMultiple(x: nat, q: nat)
    ensures (x + q * U64_MODULUS) % U64_MODULUS == x % U64_MODULUS
  {
    if q > 0 {
      ShiftByMultiple(x, q - 1);
      assert x + q * U64_MODULUS == (x + (q - 1) * U64_MODULUS) + U64_MODULUS;
    }
  }

  /** The sender panics exactly when some non-zero sample names an e-mail the
      pool does not hold (charging never adds or removes a key). */
  lemma {:induction false} AccumulateFailsExactly(pool: map<string, User>, samples: seq<Stats>)
    ensures Accumulate(pool, samples).None? <==>
              exists i :: 0 <= i < |samples| && samples[i].traffic != 0 && samples[i].email !in pool
    ensures Accumulate(pool, samples).Some? ==> Accumulate(pool, samples).value.users.Keys == pool.Keys
  {
    if |samples| > 0 {
      var front, last := samples[..|samples| - 1], samples[|samples| - 1];
      AccumulateFailsExactly(pool, front);
      if exists i :: 0 <= i < |front| && front[i].traffic != 0 && front[i].email !in pool {
        var i :| 0 <= i < |front| && front[i].traffic != 0 && front[i].email !in pool;
        assert samples[i] == front[i];
      }
      if exists i :: 0 <= i < |samples| && samples[i].traffic != 0 && samples[i].email !in pool {
        var i :| 0 <= i < |samples| && samples[i].traffic != 0 && samples[i].email !in pool;
        if i < |front| {
          assert front[i] == samples[i];
        }
      }
    }
  }

  /** One charge, seen from the principal stored under `k`, whose counter
      holds `total` modulo 2^64: the counter moves on to the total plus the
      sample's traffic when the sample names `k`, and nothing else changes. */
  lemma ChargeStep(ledger: Ledger, sample: Stats, k: string, total: nat)
    requires Charge(ledger, sample).Some? && k in ledger.users
    requires ledger.users[k].currentTraffic == total % U64_MODULUS
    ensures k in Charge(ledger, sample).value.users
    ensures Charge(ledger, sample).value.users[k] ==
              ledger.users[k].(currentTraffic := (total + if sample.email == k then sample.traffic else 0) % U64_MODULUS)
  {
    if sample.email == k && sample.traffic != 0 {
      AddModTwice(total, sample.traffic);
    }
  }

  /** Each principal's counter grows by the total its samples report, modulo
      2^64, and nothing else in its record changes. */
  lemma {:induction false} AccumulateCharges(pool: map<string, User>, samples: seq<Stats>, k: string)
    requires Accumulate(pool, samples).Some? && k in pool
    ensures k in Accumulate(pool, samples).value.users
    ensures Accumulate(pool, samples).value.users[k] ==
              pool[k].(currentTraffic := (pool[k].currentTraffic + SumFor(samples, k)) % U64_MODULUS)
  {
    if |samples| > 0 {
      var front, last := samples[..|samples| - 1], samples[|samples| - 1];
      AccumulateCharges(pool, front, k);
      var ledger := Accumulate(pool, front).value;
      assert Accumulate(pool, samples) == Charge(ledger, last);
      ChargeStep(ledger, last, k, pool[k].currentTraffic + SumFor(front, k));
    } else {
      assert pool[k].currentTraffic % U64_MODULUS == pool[k].currentTraffic;
    }
  }

  /** One record is reported per non-zero sample, in order: the i-th PATCH
      carries the pool record stored under the i-th non-zero sample's e-mail,
      with only its counter changed (so, in a well-keyed pool, the record of
      the principal the sample names). */
  lemma {:induction false} AccumulatePatches(pool: map<string, User>, samples: seq<Stats>)
    requires Accumulate(pool, samples).Some?
    ensures |Accumulate(pool, samples).value.patches| == |NonZero(samples)|
    ensures forall i :: 0 <= i < |NonZero(samples)| ==>
              NonZero(samples)[i].email in pool
              && Accumulate(pool, samples).value.patches[i] ==
                   pool[NonZero(samples)[i].email].(currentTraffic := Accumulate(pool, samples).value.patches[i].currentTraffic)
    ensures WellKeyed(pool) ==>
              forall i :: 0 <= i < |NonZero(samples)| ==>
                Accumulate(pool, samples).value.patches[i].email == NonZero(samples)[i].email
  {
    if |samples| > 0 {
      var front, last := samples[..|samples| - 1], samples[|samples| - 1];
      AccumulatePatches(pool, front);
      var ledger := Accumulate(pool, front).value;
      var after := Accumulate(pool, samples).value;
      assert Accumulate(pool, samples) == Charge(ledger, last);
      var nz, nzf := NonZero(samples), NonZero(front);
      assert nz == nzf + (if last.traffic != 0 then [last] else []);
      if last.traffic != 0 {
        AccumulateFailsExactly(pool, front);
        assert last.email in ledger.users;
        AccumulateCharges(pool, front, last.email);
        assert after.patches == ledger.patches + [after.users[last.email]];
        forall i | 0 <= i < |nz|
          ensures nz[i].email in pool
          ensures after.patches[i] == pool[nz[i].email].(currentTraffic := after.patches[i].currentTraffic)
        {
          if i < |nzf| {
            assert nz[i] == nzf[i] && after.patches[i] == ledger.patches[i];
          } else {
            assert nz[i] == last && after.patches[i] == after.users[last.email];
          }
        }
      } else {
        assert after == ledger && nz == nzf;
      }
    }
  }

  /** While the running total stays below 2^64 no counter decreases: it
      grows by exactly the principal's samples. */
  lemma CounterNeverDecreasesWithoutWrap(pool: map<string, User>, samples: seq<Stats>, k: string)
    requires Accumulate(pool, samples).Some? && k in pool
    requires pool[k].currentTraffic + SumFor(samples, k) < U64_MODULUS
    ensures k in Accumulate(pool, samples).value.users
    ensures Accumulate(pool, samples).value.users[k].currentTraffic == pool[k].currentTraffic + SumFor(samples, k)
    ensures Accumulate(pool, samples).value.users[k].currentTraffic >= pool[k].currentTraffic
  {
    AccumulateCharges(pool, samples, k);
  }

  /** syncStats over the samples the channel delivers, sharing the pool with
      the other workers. Returns the records reported with PATCH and whether
      every sample was charged (false: the nil dereference panicked). */
  method SyncStats(pool: UserPool, samples: seq<Stats>) returns (patches: seq<User>, ok: bool)
    modifies pool
    ensures ok <==> Accumulate(old(pool.users), samples).Some?
    ensures ok ==> Accumulate(old(pool.users), samples) == Some(Ledger(pool.users, patches))
  {
    patches := [];
    var i := 0;
    while i < |samples|
      invariant 0 <= i <= |samples|
      invariant Accumulate(old(pool.users), samples[..i]) == Some(Ledger(pool.users, patches))
    {
      assert samples[..i + 1][..i] == samples[..i];
      var stats := samples[i];
      if stats.traffic != 0 {
        if stats.email !in pool.users {
          AccumulateFailsExactly(old(pool.users), samples[..i]);
          AccumulateFailsExactly(old(pool.users), samples);
          assert samples[i] == samples[..i + 1][i];
          return patches, false;
        }
        var u := pool.users[stats.email];
        var charged := u.(currentTraffic := Add64(u.currentTraffic, stats.traffic));
        pool.users := pool.users[stats.email := charged];
        patches := patches + [charged];
      }
      i := i + 1;
    }
    assert samples[..i] == samples;
    return patches, true;
  }

  // ---------------------------------------------------------------------
  // Collector: getStats
  // ---------------------------------------------------------------------

  /** The sample a round makes for the principal stored under `k`: its
      e-mail and summed traffic (zero included), or none when a query fails. */
  function SampleOf(users: map<string, User>, engine: StatsEngine, k: string): Option<Stats>
    requires k in users
  {
    var q := GetUserTraffic(users[k].email, engine);
    if q.result.Ok? then Some(Stats(users[k].email, q.result.value)) else None
  }

  /** The samples of one collection round, visiting the pool's keys in
      `order`. */
  function Collect(users: map<string, User>, order: seq<string>, engine: StatsEngine): seq<Stats>
    requires forall i :: 0 <= i < |order| ==> order[i] in users
  {
    if |order| == 0 then []
    else
      var sample := SampleOf(users, engine, order[|order| - 1]);
      Collect(users, order[..|order| - 1], engine) + (if sample.Some? then [sample.value] else [])
  }

  /** A round emits a sample for every visited principal whose query
      succeeds. */
  lemma {:induction false} CollectMissesNone(users: map<string, User>, order: seq<string>, engine: StatsEngine)
    requires forall i :: 0 <= i < |order| ==> order[i] in users
    ensures |Collect(users, order, engine)| <= |order|
    ensures forall j :: 0 <= j < |order| && SampleOf(users, engine, order[j]).Some? ==>
              SampleOf(users, engine, order[j]).value in Collect(users, order, engine)
  {
    if |order| > 0 {
      var front := order[..|order| - 1];
      CollectMissesNone(users, front, engine);
      forall j | 0 <= j < |order| && SampleOf(users, engine, order[j]).Some?
        ensures SampleOf(users, engine, order[j]).value in Collect(users, order, engine)
      {
        if j < |front| {
          assert order[j] == front[j];
        }
      }
    }
  }

  /** Every sample of a round is the sample of some visited principal whose
      query succeeded: a failed query contributes nothing. */
  lemma {:induction false} CollectInventsNone(users: map<string, User>, order: seq<string>, engine: StatsEngine)
    requires forall i :: 0 <= i < |order| ==> order[i] in users
    ensures forall i :: 0 <= i < |Collect(users, order, engine)| ==>
              exists j :: 0 <= j < |order| && SampleOf(users, engine, order[j]) == Some(Collect(users, order, engine)[i])
  {
    if |order| > 0 {
      var front := order[..|order| - 1];
      CollectInventsNone(users, front, engine);
      var c := Collect(users, order, engine);
      var cf := Collect(users, front, engine);
      var sample := SampleOf(users, engine, order[|order| - 1]);
      assert c == cf + (if sample.Some? then [sample.value] else []);
      forall i | 0 <= i < |c|
        ensures exists j :: 0 <= j < |order| && SampleOf(users, engine, order[j]) == Some(c[i])
      {
        if i < |cf| {
          assert c[i] == cf[i];
          var j :| 0 <= j < |front| && SampleOf(users, engine, front[j]) == Some(cf[i]);
          assert order[j] == front[j];
        } else {
          assert SampleOf(users, engine, order[|order| - 1]) == Some(c[i]);
        }
      }
    } else {
      assert Collect(users, order, engine) == [];
    }
  }

  /** In a well-keyed pool, a round that visits each key at most once sends
      at most one sample per principal: no two samples share an e-mail. */
  lemma {:induction false} CollectOnePerPrincipal(users: map<string, User>, order: seq<string>, engine: StatsEngine)
    requires WellKeyed(users) && NoDuplicates(order)
    requires forall i :: 0 <= i < |order| ==> order[i] in users
    ensures forall i, j :: 0 <= i < j < |Collect(users, order, engine)| ==>
              Collect(users, order, engine)[i].email != Collect(users, order, engine)[j].email
  {
    if |order| > 0 {
      var front, last := order[..|order| - 1], order[|order| - 1];
      assert NoDuplicates(front) by {
        forall i, j | 0 <= i < j < |front| ensures front[i] != front[j] {
          assert front[i] == order[i] && front[j] == order[j];
        }
      }
      CollectOnePerPrincipal(users, front, engine);
      CollectInventsNone(users, front, engine);
      var c, cf := Collect(users, order, engine), Collect(users, front, engine);
      var sample := SampleOf(users, engine, last);
      assert c == cf + (if sample.Some? then [sample.value] else []);
      forall i, j | 0 <= i < j < |c| ensures c[i].email != c[j].email {
        if j < |cf| {
          assert c[i] == cf[i] && c[j] == cf[j];
        } else {
          assert c[j] == sample.value && sample.value.email == last;
          assert c[i] == cf[i];
          var k :| 0 <= k < |front| && SampleOf(users, engine, front[k]) == Some(cf[i]);
          assert cf[i].email == front[k];
          assert front[k] == order[k] && k < |order| - 1;
        }
      }
    }
  }

  /** getStats: range over the pool in an order the runtime picks, query
      each principal, send a sample for each query that succeeds. The order
      visited is returned as a ghost witness. */
  method GetStats(users: map<string, User>, engine: StatsEngine) returns (samples: seq<Stats>, ghost order: seq<string>)
    ensures NoDuplicates(order) && forall k :: k in order <==> k in users
    ensures samples == Collect(users, order, engine)
    ensures forall k :: k in users && SampleOf(users, engine, k).Some? ==> SampleOf(users, engine, k).value in samples
    ensures forall i :: 0 <= i < |samples| ==> exists k :: k in users && SampleOf(users, engine, k) == Some(samples[i])
  {
    var remaining := users.Keys;
    samples := [];
    order := [];
    while remaining != {}
      invariant forall k :: k in users <==> k in remaining || k in order
      invariant forall k :: k in remaining ==> k !in order
      invariant NoDuplicates(order)
      invariant samples == Collect(users, order, engine)
      decreases |remaining|
    {
      var k :| k in remaining;
      var traffic := GetUserTraffic(users[k].email, engine).result;
      ghost var before := order;
      order := order + [k];
      assert order[..|order| - 1] == before;
      if traffic.Ok? {
        samples := samples + [Stats(users[k].email, traffic.value)];
      }
      remaining := remaining - {k};
    }
    CollectCoversPool(users, order, engine);
  }

  /** A round that visits every key of the pool holds the sample of every
      principal whose query succeeds, and no other sample. */
  lemma CollectCoversPool(users: map<string, User>, order: seq<string>, engine: StatsEngine)
    requires forall k :: k in order <==> k in users
    ensures forall k :: k in users && SampleOf(users, engine, k).Some? ==>
              SampleOf(users, engine, k).value in Collect(users, order, engine)
    ensures forall i :: 0 <= i < |Collect(users, order, engine)| ==>
              exists k :: k in users && SampleOf(users, engine, k) == Some(Collect(users, order, engine)[i])
  {
    assert forall i :: 0 <= i < |order| ==> order[i] in users;
    CollectMissesNone(users, order, engine);
    CollectInventsNone(users, order, engine);
    forall k | k in users && SampleOf(users, engine, k).Some?
      ensures SampleOf(users, engine, k).value in Collect(users, order, engine)
    {
      var j :| 0 <= j < |order| && order[j] == k;
    }
    forall i | 0 <= i < |Collect(users, order, engine)|
      ensures exists k :: k in users && SampleOf(users, engine, k) == Some(Collect(users, order, engine)[i])
    {
      var j :| 0 <= j < |order| && SampleOf(users, engine, order[j]) == Some(Collect(users, order, engine)[i]);
      var k := order[j];
      assert k in users && SampleOf(users, engine, k) == Some(Collect(users, order, engine)[i]);
    }
  }

  /** What one round reads for the principal stored under `k`: its summed
      traffic, or nothing when a query failed. */
  function TrafficOf(users: map<string, User>, engine: StatsEngine, k: string): uint64
    requires k in users
  {
    var q := GetUserTraffic(users[k].email, engine);
    if q.result.Ok? then q.result.value else 0
  }

  /** In a well-keyed pool the sample for key `last` counts towards `k`
      exactly when `last` is `k`. */
  lemma SampleCountsForOwnKey(users: map<string, User>, engine: StatsEngine, last: string, k: string)
    requires WellKeyed(users) && last in users
    ensures (var sample := SampleOf(users, engine, last);
             if sample.Some? && sample.value.email == k then sample.value.traffic else 0)
            == (if last == k then TrafficOf(users, engine, k) else 0)
  {
  }

  /** In a well-keyed pool visited once per key, a round reports for each
      principal exactly its own traffic. */
  lemma {:induction false} CollectSumFor(users: map<string, User>, order: seq<string>, engine: StatsEngine, k: string)
    requires WellKeyed(users) && NoDuplicates(order)
    requires forall i :: 0 <= i < |order| ==> order[i] in users
    ensures SumFor(Collect(users, order, engine), k) == if k in order && k in users then TrafficOf(users, engine, k) else 0
  {
    if |order| > 0 {
      var front, last := order[..|order| - 1], order[|order| - 1];
      assert NoDuplicates(front);
      CollectSumFor(users, front, engine, k);
      var c := Collect(users, front, engine);
      var sample := SampleOf(users, engine, last);
      var extra := if sample.Some? then [sample.value] else [];
      assert Collect(users, order, engine) == c + extra;
      SumForAppend(c, extra, k);
      SampleCountsForOwnKey(users, engine, last, k);
      if last == k {
        assert k !in front by {
          forall i | 0 <= i < |front| ensures front[i] != k {
            assert order[i] != order[|order| - 1];
          }
        }
      }
      assert k in order <==> k in front || k == last;
    }
  }

  /** The total of a concatenation is the sum of the totals (for at most one
      appended sample). */
  lemma SumForAppend(c: seq<Stats>, extra: seq<Stats>, k: string)
    requires |extra| <= 1
    ensures SumFor(c + extra, k) == SumFor(c, k) + if |extra| == 1 && extra[0].email == k then extra[0].traffic else 0
  {
    if |extra| == 1 {
      assert (c + extra)[..|c + extra| - 1] == c;
    } else {
      assert c + extra == c;
    }
  }

  /** Every sample of a round over a well-keyed pool names a pooled
      principal, so the sender never meets an unknown e-mail. */
  lemma RoundNeverPanics(users: map<string, User>, order: seq<string>, engine: StatsEngine)
    requires WellKeyed(users) && forall i :: 0 <= i < |order| ==> order[i] in users
    ensures Accumulate(users, Collect(users, order, engine)).Some?
  {
    var samples := Collect(users, order, engine);
    CollectInventsNone(users, order, engine);
    forall i | 0 <= i < |samples| ensures samples[i].email in users {
      var j :| 0 <= j < |order| && SampleOf(users, engine, order[j]) == Some(samples[i]);
    }
    AccumulateFailsExactly(users, samples);
  }

  /** A collection round followed by the sender: over a well-keyed pool the
      sender never panics, and every principal's CurrentTraffic grows by
      exactly the uplink plus downlink the engine reported for it (in uint64
      arithmetic), its other fields untouched. */
  lemma RoundChargesEachPrincipal(users: map<string, User>, order: seq<string>, engine: StatsEngine)
    requires WellKeyed(users) && NoDuplicates(order) && forall k :: k in order <==> k in users
    ensures Accumulate(users, Collect(users, order, engine)).Some?
    ensures forall k :: k in users ==>
              k in Accumulate(users, Collect(users, order, engine)).value.users
              && Accumulate(users, Collect(users, order, engine)).value.users[k] ==
                 users[k].(currentTraffic := Add64(users[k].currentTraffic, TrafficOf(users, engine, k)))
  {
    var samples := Collect(users, order, engine);
    RoundNeverPanics(users, order, engine);
    forall k | k in users
      ensures k in Accumulate(users, samples).value.users
      ensures Accumulate(users, samples).value.users[k] ==
                users[k].(currentTraffic := Add64(users[k].currentTraffic, TrafficOf(users, engine, k)))
    {
      CollectSumFor(users, order, engine, k);
      AccumulateCharges(users, samples, k);
    }
  }
}
