/** What the reconciler's cycles achieve (worker/service.go): the
    multi-inbound mirror converges to the snapshot; the single-inbound mirror
    follows the snapshot filtered by quota, panics exactly when it deletes a
    service twice, and oscillates at a quota reached exactly; and the engine
    effects of the two removal paths. */
module ServiceProperties {
  import opened Models
  import opened V2Ray
  import opened Convert
  import opened ServiceDiff
  import opened ServiceWorker

  // ---------------------------------------------------------------------
  // Multi-inbound mode
  // ---------------------------------------------------------------------

  /** Per service: a service that left the snapshot is gone; one that stayed
      keeps the copies it had; a new one arrives with the snapshot's copies. */
  lemma MultiCycleCounts(mirror: seq<Service>, snapshot: seq<Service>, x: Service)
    ensures multiset(MultiApplied(mirror, snapshot))[x] ==
              if x !in snapshot then 0
              else if x in mirror then multiset(mirror)[x]
              else multiset(snapshot)[x]
  {
    var toAdd := Difference(snapshot, mirror);
    var toDel := Difference(mirror, snapshot);
    var base := mirror + toAdd;
    DifferenceSubMultiset(mirror, snapshot);
    RemoveEachMultiset(base, toDel);
    DifferenceCount(snapshot, mirror, x);
    DifferenceCount(mirror, snapshot, x);
    assert multiset(base) == multiset(mirror) + multiset(toAdd);
  }

  /** One cycle makes the mirror hold exactly the snapshot's services. */
  lemma MultiCycleConverges(mirror: seq<Service>, snapshot: seq<Service>)
    ensures forall x :: x in MultiApplied(mirror, snapshot) <==> x in snapshot
  {
    var r := MultiApplied(mirror, snapshot);
    forall x ensures x in r <==> x in snapshot {
      MultiCycleCounts(mirror, snapshot, x);
      assert x in r <==> multiset(r)[x] > 0;
      assert x in mirror <==> multiset(mirror)[x] > 0;
      assert x in snapshot <==> multiset(snapshot)[x] > 0;
    }
  }

  /** When neither the mirror nor the snapshot has duplicates, the mirror
      after the cycle agrees with the snapshot copy for copy and stays
      duplicate-free. */
  lemma MultiCycleKeepsNoDuplicates(mirror: seq<Service>, snapshot: seq<Service>)
    requires NoDuplicates(mirror) && NoDuplicates(snapshot)
    ensures multiset(MultiApplied(mirror, snapshot)) == multiset(snapshot)
    ensures NoDuplicates(MultiApplied(mirror, snapshot))
  {
    var r := MultiApplied(mirror, snapshot);
    forall x ensures multiset(r)[x] == multiset(snapshot)[x] && multiset(r)[x] <= 1 {
      MultiCycleCounts(mirror, snapshot, x);
      NoDuplicatesCount(snapshot, x);
      NoDuplicatesCount(mirror, x);
      assert x in mirror <==> multiset(mirror)[x] > 0;
      assert x in snapshot <==> multiset(snapshot)[x] > 0;
    }
    CountsBoundNoDuplicates(r);
  }

  /** A second cycle on the same snapshot plans nothing and changes nothing. */
  lemma MultiCycleSteadyState(mirror: seq<Service>, snapshot: seq<Service>)
    ensures Difference(snapshot, MultiApplied(mirror, snapshot)) == []
    ensures Difference(MultiApplied(mirror, snapshot), snapshot) == []
    ensures MultiApplied(MultiApplied(mirror, snapshot), snapshot) == MultiApplied(mirror, snapshot)
  {
    var r := MultiApplied(mirror, snapshot);
    MultiCycleConverges(mirror, snapshot);
    DifferenceEmpty(snapshot, r);
    DifferenceEmpty(r, snapshot);
    assert r + [] == r;
  }

  /** From the empty mirror the first cycle adds every service and removes none. */
  lemma MultiColdStart(snapshot: seq<Service>)
    ensures Difference(snapshot, []) == snapshot && Difference([], snapshot) == []
    ensures MultiApplied([], snapshot) == snapshot
  {
    DifferenceIdentities(snapshot);
    assert [] + snapshot == snapshot;
  }

  /** A 200 answer whose body failed to decode before any service was filled
      in passes validation as an empty batch, and the next multi-inbound
      cycle then plans the removal of every applied service. (In
      single-inbound mode the same batch panics as soon as an applied
      principal is exhausted: WithdrawnExhaustedServicePanics.) */
  lemma EmptySnapshotClearsMirror(mirror: seq<Service>)
    ensures Difference([], mirror) == [] && Difference(mirror, []) == mirror
    ensures MultiApplied(mirror, []) == []
  {
    DifferenceIdentities(mirror);
    var r := MultiApplied(mirror, []);
    forall x ensures multiset(r)[x] == 0 {
      MultiCycleCounts(mirror, [], x);
    }
    assert multiset(r) == multiset{};
  }

  // ---------------------------------------------------------------------
  // Engine effects
  // ---------------------------------------------------------------------

  /** The part of the engine state the calls touch: inbound tags and user
      e-mails. The engine is assumed to hold a tag after AddInbound and not
      after RemoveInbound, and likewise for users (whether or not the call
      reported an error). */
  datatype EngineView = EngineView(inboundTags: set<string>, userEmails: set<string>)

  function Apply(view: EngineView, call: RpcCall): EngineView {
    match call
    case AddInbound(config) => view.(inboundTags := view.inboundTags + {config.tag})
    case RemoveInbound(tag) => view.(inboundTags := view.inboundTags - {tag})
    case AddUser(user) => view.(userEmails := view.userEmails + {user.email})
    case DelUser(email) => view.(userEmails := view.userEmails - {email})
  }

  /** The engine state after the calls, in order. */
  function Replay(view: EngineView, calls: seq<RpcCall>): EngineView
    decreases |calls|
  {
    if |calls| == 0 then view else Replay(Apply(view, calls[0]), calls[1..])
  }

  /** When a lone applied service leaves the snapshot in multi-inbound mode
      the mirror forgets it, but the one call issued names the `%x` tag, so
      the service's own inbound stays in the engine. (With several services
      withdrawn at once, a `%x` tag can instead remove another service's
      inbound: RemovalTagCanHitAnotherInbound.) */
  lemma RemovedServiceKeepsItsInbound(s: Service, portFromInt: PortFn, view: EngineView)
    requires ConvertVmessInbound(s, portFromInt).tag in view.inboundTags
    ensures MultiApplied([s], []) == []
    ensures AddInboundCalls(Difference([], [s]), portFromInt) + RemoveInboundCalls(Difference([s], []))
              == [RemoveInbound(RemovalTag(s.id))]
    ensures ConvertVmessInbound(s, portFromInt).tag in Replay(view, [RemoveInbound(RemovalTag(s.id))]).inboundTags
  {
    EmptySnapshotClearsMirror([s]);
    var adds := AddInboundCalls(Difference([], [s]), portFromInt);
    var dels := RemoveInboundCalls(Difference([s], []));
    assert adds == [];
    assert |dels| == 1 && dels[0] == RemoveInbound(RemovalTag(s.id));
    assert adds + dels == dels;
    RemovalTagNeverMatchesOwnInbound(s, portFromInt);
    var own := ConvertVmessInbound(s, portFromInt).tag;
    var after := Apply(view, RemoveInbound(RemovalTag(s.id)));
    assert after.inboundTags == view.inboundTags - {RemovalTag(s.id)};
    assert own in after.inboundTags;
    var calls := [RemoveInbound(RemovalTag(s.id))];
    assert calls[1..] == [];
    assert Replay(view, calls) == Replay(after, []) == after;
  }

  // ---------------------------------------------------------------------
  // Single-inbound mode
  // ---------------------------------------------------------------------

  /** The principal of `x` is known and the quota admits it. */
  predicate AdmitsIn(users: map<string, User>, x: Service) {
    x.email in users && Admits(users[x.email])
  }

  /** The principal of `x` is known and has exhausted the quota. */
  predicate ExhaustedIn(users: map<string, User>, x: Service) {
    x.email in users && Exhausted(users[x.email])
  }

  /** Copies added: those of a new service whose principal the quota admits. */
  lemma SingleAddsCount(mirror: seq<Service>, snapshot: seq<Service>, users: map<string, User>, x: Service)
    requires SingleKnown(mirror, snapshot, users)
    ensures multiset(SingleAdds(mirror, snapshot, users))[x] ==
              if x !in mirror && AdmitsIn(users, x) then multiset(snapshot)[x] else 0
  {
    DifferenceCount(snapshot, mirror, x);
    AdmittedCount(Difference(snapshot, mirror), users, x);
  }

  /** Copies deleted: all of a vanished service, and all of an exhausted
      one again, so a vanished exhausted service is deleted twice. */
  lemma SingleDelsCount(mirror: seq<Service>, snapshot: seq<Service>, users: map<string, User>, x: Service)
    requires SingleKnown(mirror, snapshot, users)
    ensures multiset(SingleDels(mirror, snapshot, users))[x] ==
              (if x in snapshot then 0 else multiset(mirror)[x])
              + (if ExhaustedIn(users, x) then multiset(mirror)[x] else 0)
  {
    DifferenceCount(mirror, snapshot, x);
    EvictedCount(mirror, users, x);
  }

  /** An applied service that left the snapshot while its principal is
      exhausted is deleted twice, once more than the mirror holds it: the
      second lookup returns -1 and the slice panics. */
  lemma SingleCyclePanicsOnDoubleDelete(mirror: seq<Service>, snapshot: seq<Service>, users: map<string, User>, i: nat)
    requires SingleKnown(mirror, snapshot, users)
    requires i < |mirror| && mirror[i] !in snapshot && Exhausted(users[mirror[i].email])
    ensures SingleApplied(mirror, snapshot, users).None?
  {
    var adds, dels := SingleAdds(mirror, snapshot, users), SingleDels(mirror, snapshot, users);
    var base := mirror + adds;
    var x := mirror[i];
    RemoveEachMultiset(base, dels);
    assert multiset(base) == multiset(mirror) + multiset(adds);
    SingleDelsCount(mirror, snapshot, users, x);
    SingleAddsCount(mirror, snapshot, users, x);
    assert multiset(mirror)[x] > 0;
    assert multiset(dels)[x] > multiset(base)[x];
  }

  /** Without such a service every lookup of the delete loop succeeds. */
  lemma SingleCycleSplicesSucceed(mirror: seq<Service>, snapshot: seq<Service>, users: map<string, User>)
    requires SingleKnown(mirror, snapshot, users)
    requires forall i :: 0 <= i < |mirror| && mirror[i] !in snapshot ==> !Exhausted(users[mirror[i].email])
    ensures SingleApplied(mirror, snapshot, users).Some?
  {
    var adds, dels := SingleAdds(mirror, snapshot, users), SingleDels(mirror, snapshot, users);
    var base := mirror + adds;
    assert multiset(base) == multiset(mirror) + multiset(adds);
    forall x ensures multiset(dels)[x] <= multiset(base)[x] {
      SingleDelsCount(mirror, snapshot, users, x);
      SingleAddsCount(mirror, snapshot, users, x);
      if x in mirror && x !in snapshot {
        var i :| 0 <= i < |mirror| && mirror[i] == x;
        assert !Exhausted(users[mirror[i].email]);
      }
    }
    RemoveEachSucceeds(base, dels);
  }

  /** The slice-bounds panic happens exactly when an applied service has left
      the snapshot and its principal has exhausted the quota. */
  lemma SingleCyclePanicsExactly(mirror: seq<Service>, snapshot: seq<Service>, users: map<string, User>)
    requires SingleKnown(mirror, snapshot, users)
    ensures SingleApplied(mirror, snapshot, users).None? <==>
              exists i :: 0 <= i < |mirror| && mirror[i] !in snapshot && Exhausted(users[mirror[i].email])
  {
    if exists i :: 0 <= i < |mirror| && mirror[i] !in snapshot && Exhausted(users[mirror[i].email]) {
      var i :| 0 <= i < |mirror| && mirror[i] !in snapshot && Exhausted(users[mirror[i].email]);
      SingleCyclePanicsOnDoubleDelete(mirror, snapshot, users, i);
    } else {
      SingleCycleSplicesSucceed(mirror, snapshot, users);
    }
  }

  /** Per service, after an applied single-inbound cycle: an applied service
      survives only if it is still wanted and not exhausted; a new one is
      applied with all its copies when the quota admits it. */
  lemma SingleCycleCounts(mirror: seq<Service>, snapshot: seq<Service>, users: map<string, User>, x: Service)
    requires SingleKnown(mirror, snapshot, users)
    requires SingleApplied(mirror, snapshot, users).Some?
    ensures multiset(SingleApplied(mirror, snapshot, users).value)[x] ==
              if x in mirror then (if x in snapshot && !ExhaustedIn(users, x) then multiset(mirror)[x] else 0)
              else if AdmitsIn(users, x) then multiset(snapshot)[x] else 0
  {
    var adds, dels := SingleAdds(mirror, snapshot, users), SingleDels(mirror, snapshot, users);
    var base := mirror + adds;
    RemoveEachMultiset(base, dels);
    assert multiset(base) == multiset(mirror) + multiset(adds);
    SingleDelsCount(mirror, snapshot, users, x);
    SingleAddsCount(mirror, snapshot, users, x);
    SingleCyclePanicsExactly(mirror, snapshot, users);
    if x in mirror && x !in snapshot {
      var i :| 0 <= i < |mirror| && mirror[i] == x;
      assert !Exhausted(users[mirror[i].email]);
    }
  }

  /** The quota, as enforced by an applied cycle: every applied service is
      wanted and admitted, one applied before is strictly under quota, and
      every wanted service strictly under quota is applied. */
  lemma SingleCycleEnforcesQuota(mirror: seq<Service>, snapshot: seq<Service>, users: map<string, User>)
    requires SingleKnown(mirror, snapshot, users)
    requires SingleApplied(mirror, snapshot, users).Some?
    ensures forall x :: x in SingleApplied(mirror, snapshot, users).value ==> x in snapshot && AdmitsIn(users, x)
    ensures forall x :: x in SingleApplied(mirror, snapshot, users).value && x in mirror ==> !ExhaustedIn(users, x)
    ensures forall x :: x in snapshot && x.email in users && users[x.email].maxTraffic > users[x.email].currentTraffic ==>
              x in SingleApplied(mirror, snapshot, users).value
  {
    var r := SingleApplied(mirror, snapshot, users).value;
    forall x | x in r ensures x in snapshot && AdmitsIn(users, x) && (x in mirror ==> !ExhaustedIn(users, x)) {
      SingleCycleCounts(mirror, snapshot, users, x);
      if x in mirror {
        var i :| 0 <= i < |mirror| && mirror[i] == x;
        assert x.email in users;
      }
    }
    forall x | x in snapshot && x.email in users && users[x.email].maxTraffic > users[x.email].currentTraffic
      ensures x in r
    {
      SingleCycleCounts(mirror, snapshot, users, x);
    }
  }

  /** From the empty mirror the first cycle applies the admitted services. */
  lemma SingleColdStart(snapshot: seq<Service>, users: map<string, User>)
    requires AllKnown(snapshot, users)
    ensures SingleKnown([], snapshot, users)
    ensures SingleDels([], snapshot, users) == []
    ensures SingleApplied([], snapshot, users) == Some(Admitted(snapshot, users))
  {
    DifferenceIdentities(snapshot);
    assert [] + Admitted(snapshot, users) == Admitted(snapshot, users);
    assert SingleDels([], snapshot, users) == [];
  }

  /** A single service, not yet applied: the first cycle applies it exactly
      when the quota admits its principal. */
  lemma LoneServiceArrives(s: Service, users: map<string, User>)
    requires s.email in users
    ensures SingleKnown([], [s], users)
    ensures SingleApplied([], [s], users) == if Admits(users[s.email]) then Some([s]) else Some([])
  {
    SingleColdStart([s], users);
    assert Admitted([s], users) == Admitted([], users) + (if Admits(users[s.email]) then [s] else []) by {
      assert [s][..0] == [];
    }
    assert Admitted([], users) == [];
    assert Admitted([s], users) == (if Admits(users[s.email]) then [s] else []);
  }

  /** A single service, applied and still wanted: the cycle evicts it exactly
      when its principal has exhausted the quota. */
  lemma LoneServiceStays(s: Service, users: map<string, User>)
    requires s.email in users
    ensures SingleKnown([s], [s], users)
    ensures SingleApplied([s], [s], users) == if Exhausted(users[s.email]) then Some([]) else Some([s])
  {
    DifferenceIdentities([s]);
    assert Evicted([s], users) == Evicted([], users) + (if Exhausted(users[s.email]) then [s] else []) by {
      assert [s][..0] == [];
    }
    assert SingleAdds([s], [s], users) == [];
    assert [s] + SingleAdds([s], [s], users) == [s];
    if Exhausted(users[s.email]) {
      assert SingleDels([s], [s], users) == [s];
      RemoveEachOne([s], s);
      assert IndexOf([s], s) == 0;
    } else {
      assert SingleDels([s], [s], users) == [];
    }
  }

  /** A principal with a quota of 100 and nothing used gets its service; once
      150 have been used the same snapshot evicts it. */
  lemma QuotaExhaustionEvicts(s: Service, username: string)
    ensures var idle := map[s.email := User(s.email, username, 0, 100)];
            SingleKnown([], [s], idle) && SingleApplied([], [s], idle) == Some([s])
    ensures var spent := map[s.email := User(s.email, username, 150, 100)];
            SingleKnown([s], [s], spent) && SingleApplied([s], [s], spent) == Some([])
  {
    LoneServiceArrives(s, map[s.email := User(s.email, username, 0, 100)]);
    LoneServiceStays(s, map[s.email := User(s.email, username, 150, 100)]);
  }

  /** At exactly the quota the two filters disagree: the service is added
      when absent and evicted when present, so the mirror flips on every
      cycle over the same snapshot. */
  lemma QuotaEqualityOscillates(s: Service, u: User)
    requires u.email == s.email && u.maxTraffic == u.currentTraffic
    ensures SingleKnown([], [s], map[s.email := u])
    ensures SingleApplied([], [s], map[s.email := u]) == Some([s])
    ensures SingleKnown([s], [s], map[s.email := u])
    ensures SingleApplied([s], [s], map[s.email := u]) == Some([])
  {
    LoneServiceArrives(s, map[s.email := u]);
    LoneServiceStays(s, map[s.email := u]);
  }

  /** An empty batch withdraws every applied service; one whose principal is
      over quota is then deleted twice, and the cycle panics. */
  lemma WithdrawnExhaustedServicePanics(mirror: seq<Service>, users: map<string, User>, i: nat)
    requires SingleKnown(mirror, [], users)
    requires i < |mirror| && Exhausted(users[mirror[i].email])
    ensures SingleApplied(mirror, [], users).None?
  {
    SingleCyclePanicsExactly(mirror, [], users);
    assert mirror[i] !in [];
  }

  /** Editing any field of a service (a new name, say) replaces the mirror
      entry, but the engine sees AddUser and then DelUser for the same e-mail:
      the principal ends up without an engine user. */
  lemma FieldEditDropsEngineUser(s: Service, t: Service, u: User, view: EngineView)
    requires s != t && s.email == t.email && u.email == s.email
    requires u.maxTraffic > u.currentTraffic
    ensures SingleKnown([s], [t], map[s.email := u])
    ensures SingleApplied([s], [t], map[s.email := u]) == Some([t])
    ensures AddUserCalls(SingleAdds([s], [t], map[s.email := u]))
              + DelUserCalls(SingleDels([s], [t], map[s.email := u]))
              == [AddUser(ConvertService(t)), DelUser(s.email)]
    ensures s.email !in Replay(view, [AddUser(ConvertService(t)), DelUser(s.email)]).userEmails
  {
    var users := map[s.email := u];
    FieldEditPlan(s, t, users);
    SpliceFront(s, t);
    FieldEditCalls(s, t);
    DeleteAfterAddWins(view, ConvertService(t), s.email);
  }

  /** Whatever AddUser put in, a later DelUser of the same e-mail takes out. */
  lemma DeleteAfterAddWins(view: EngineView, user: EngineUser, email: string)
    ensures email !in Replay(view, [AddUser(user), DelUser(email)]).userEmails
  {
    ReplayTwo(view, AddUser(user), DelUser(email));
  }

  /** The engine calls for adding `t` and deleting `s`. */
  lemma FieldEditCalls(s: Service, t: Service)
    ensures AddUserCalls([t]) + DelUserCalls([s]) == [AddUser(ConvertService(t)), DelUser(s.email)]
  {
    var add, del := AddUserCalls([t]), DelUserCalls([s]);
    assert |add| == 1 && add[0] == AddUser(ConvertService(t));
    assert |del| == 1 && del[0] == DelUser(s.email);
  }

  /** Appending `t` to `[s]` and then removing `s` leaves `[t]`. */
  lemma SpliceFront(s: Service, t: Service)
    ensures RemoveEach([s] + [t], [s]) == Some([t])
  {
    RemoveEachOne([s, t], s);
    assert [s] + [t] == [s, t];
    assert IndexOf([s, t], s) == 0;
    assert [s, t][..0] + [s, t][1..] == [t];
  }

  /** The plan for a field edit under quota: add the new record, delete the
      old one. */
  lemma FieldEditPlan(s: Service, t: Service, users: map<string, User>)
    requires s != t && s.email == t.email && s.email in users
    requires users[s.email].maxTraffic > users[s.email].currentTraffic
    ensures SingleKnown([s], [t], users)
    ensures SingleAdds([s], [t], users) == [t] && SingleDels([s], [t], users) == [s]
  {
    DifferenceKeepsAll([t], [s]);
    DifferenceKeepsAll([s], [t]);
    assert [s][..0] == [] && [t][..0] == [];
    assert Admitted([t], users) == Admitted([], users) + [t];
    assert Evicted([s], users) == Evicted([], users);
  }

  /** Replaying two calls applies them in order. */
  lemma ReplayTwo(view: EngineView, a: RpcCall, b: RpcCall)
    ensures Replay(view, [a, b]) == Apply(Apply(view, a), b)
  {
    assert [a, b][1..] == [b] && [b][1..] == [];
    assert Replay(view, [a, b]) == Replay(Apply(view, a), [b]);
    assert Replay(Apply(view, a), [b]) == Replay(Apply(Apply(view, a), b), []);
  }
}
