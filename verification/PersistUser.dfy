/**
 * Creation of a user with credentials, undone when a credential step fails
 * (lib/api/controllers/securityController.ts:1426-1576).
 */
module PersistUser {
  import opened Wrappers

  /** `kuzzle` tells errors raised by the application's own classes from the others. */
  datatype Error = Error(kuzzle: bool, message: string)

  /** What is stored: users by id, and for each strategy the ids that have credentials. */
  datatype Store = Store(users: map<string, string>, credentials: map<(string, string), string>)

  /**
   * What authentication plugins and the user storage do when they are called. A call that fails
   * changes nothing; `deletes(s)` is the error of a failing deletion for strategy `s`.
   */
  datatype Plugins = Plugins(known: set<string>,
                             validates: string -> Option<Error>, creates: string -> Option<Error>,
                             deletes: string -> Option<Error>)

  datatype UserStorage = UserStorage(creationFails: bool, deletionFails: bool)

  /** The body of the request; without an id, `generated(k)` is the k-th id drawn. */
  datatype Request = Request(id: Option<string>, content: string, strategies: seq<string>, secret: string -> string,
                             generated: nat -> string)

  datatype Outcome =
    | Created(id: string)
    | UnknownStrategy(strategy: string)
    | DatabaseInconsistency(id: string)
    | UserNotCreated
    | AsIs(error: Error)
    | CredentialsRejected(message: string)
    | PluginError(messages: seq<string>)

  /* ---------- choosing an id ---------- */

  datatype Scan = Clear | Unknown(strategy: string) | Taken

  /** The checks made for one id: the first unknown strategy, or the first one that has credentials for the id. */
  function ScanFor(store: Store, plugins: Plugins, strategies: seq<string>, id: string): Scan
  {
    if strategies == [] then Clear
    else if strategies[0] !in plugins.known then Unknown(strategies[0])
    else if (strategies[0], id) in store.credentials then Taken
    else ScanFor(store, plugins, strategies[1..], id)
  }

  predicate FreeId(store: Store, strategies: seq<string>, id: string)
  {
    forall s <- strategies :: (s, id) !in store.credentials
  }

  lemma {:induction false} ScanMeans(store: Store, plugins: Plugins, strategies: seq<string>, id: string)
    ensures ScanFor(store, plugins, strategies, id) == Clear <==>
            FreeId(store, strategies, id) && forall s <- strategies :: s in plugins.known
  {
    if strategies != [] {
      ScanMeans(store, plugins, strategies[1..], id);
      assert strategies == [strategies[0]] + strategies[1..];
      assert strategies[0] in strategies;
    }
  }

  /** The draw at which the loop ends; `horizon` is one whose id is not taken. */
  function LastDraw(store: Store, plugins: Plugins, request: Request, draw: nat, horizon: nat): (k: nat)
    requires draw <= horizon && ScanFor(store, plugins, request.strategies, request.generated(horizon)) != Taken
    ensures draw <= k <= horizon && ScanFor(store, plugins, request.strategies, request.generated(k)) != Taken
    ensures forall j :: draw <= j < k ==> ScanFor(store, plugins, request.strategies, request.generated(j)) == Taken
    decreases horizon - draw
  {
    if ScanFor(store, plugins, request.strategies, request.generated(draw)) != Taken then draw
    else LastDraw(store, plugins, request, draw + 1, horizon)
  }

  predicate DrawEnds(store: Store, plugins: Plugins, request: Request, horizon: nat)
  {
    request.id.None? ==> ScanFor(store, plugins, request.strategies, request.generated(horizon)) != Taken
  }

  function ChosenId(store: Store, plugins: Plugins, request: Request, horizon: nat): string
    requires DrawEnds(store, plugins, request, horizon)
  {
    match request.id
    case Some(id) => id
    case None => request.generated(LastDraw(store, plugins, request, 0, horizon))
  }

  /* ---------- creating, and undoing ---------- */

  datatype Failure = Failure(error: Error, validation: bool)

  datatype Progress = Progress(store: Store, created: seq<string>, failure: Option<Failure>)

  /** Goes through the strategies until one fails. */
  function CreateAll(p: Progress, plugins: Plugins, request: Request, id: string, strategies: seq<string>): Progress
    decreases |strategies|
  {
    if strategies == [] || p.failure.Some? then p
    else CreateAll(CreateOne(p, plugins, request, id, strategies[0]), plugins, request, id, strategies[1..])
  }

  function CreateOne(p: Progress, plugins: Plugins, request: Request, id: string, s: string): Progress
  {
    if plugins.validates(s).Some? then p.(failure := Some(Failure(plugins.validates(s).value, true)))
    else if plugins.creates(s).Some? then p.(failure := Some(Failure(plugins.creates(s).value, false)))
    else Progress(p.store.(credentials := p.store.credentials[(s, id) := request.secret(s)]), p.created + [s], None)
  }

  /** Deletes the created credentials, whatever errors this produces. */
  function DeleteAll(store: Store, plugins: Plugins, id: string, created: seq<string>): (Store, seq<Error>)
  {
    if created == [] then (store, [])
    else
      var (before, errors) := DeleteAll(store, plugins, id, created[..|created| - 1]);
      var s := created[|created| - 1];
      match plugins.deletes(s)
      case Some(error) => (before, errors + [error])
      case None => (before.(credentials := before.credentials - {(s, id)}), errors)
  }

  function Messages(errors: seq<Error>): seq<string>
  {
    if errors == [] then [] else Messages(errors[..|errors| - 1]) + [errors[|errors| - 1].message]
  }

  /** The error the caller gets for a failed creation. */
  function ErrorFor(failure: Failure, deletionErrors: seq<Error>): Outcome
  {
    if deletionErrors != [] then PluginError([failure.error.message] + Messages(deletionErrors))
    else if failure.error.kuzzle then AsIs(failure.error)
    else if failure.validation then CredentialsRejected(failure.error.message)
    else PluginError([failure.error.message])
  }

  function RollBack(p: Progress, plugins: Plugins, storage: UserStorage, id: string): (Store, Outcome)
    requires p.failure.Some?
  {
    var (store, errors) := DeleteAll(p.store, plugins, id, p.created);
    (if storage.deletionFails then store else store.(users := store.users - {id}), ErrorFor(p.failure.value, errors))
  }

  function Persist(store: Store, plugins: Plugins, storage: UserStorage, request: Request, horizon: nat)
    : (Store, Outcome)
    requires DrawEnds(store, plugins, request, horizon)
  {
    var id := ChosenId(store, plugins, request, horizon);
    match ScanFor(store, plugins, request.strategies, id)
    case Unknown(s) => (store, UnknownStrategy(s))
    case Taken => (store, DatabaseInconsistency(id))
    case Clear =>
      if id in store.users || storage.creationFails then (store, UserNotCreated)
      else
        var p := CreateAll(Begun(store, request, id), plugins, request, id, request.strategies);
        if p.failure.None? then (p.store, Created(id)) else RollBack(p, plugins, storage, id)
  }

  /** The user is stored, without credentials. */
  function Begun(store: Store, request: Request, id: string): Progress
  {
    Progress(store.(users := store.users[id := request.content]), [], None)
  }

  /* ---------- what is created, and what a rollback leaves ---------- */

  predicate Distinct(strategies: seq<string>)
  {
    forall i, j :: 0 <= i < j < |strategies| ==> strategies[i] != strategies[j]
  }

  /** The strategies before the first one whose validation or creation fails. */
  function Succeeding(plugins: Plugins, strategies: seq<string>): seq<string>
  {
    if strategies == [] || plugins.validates(strategies[0]).Some? || plugins.creates(strategies[0]).Some? then []
    else [strategies[0]] + Succeeding(plugins, strategies[1..])
  }

  lemma {:induction false} SucceedingIsPart(plugins: Plugins, strategies: seq<string>)
    ensures forall s <- Succeeding(plugins, strategies) :: s in strategies
  {
    if strategies != [] {
      SucceedingIsPart(plugins, strategies[1..]);
    }
  }

  /** The credentials of `id` for some strategies. */
  function Keys(id: string, strategies: seq<string>): set<(string, string)>
  {
    set s | s in strategies :: (s, id)
  }

  /** `now` is `before` with credentials of `id` added for exactly the given strategies. */
  ghost predicate AddedFor(before: map<(string, string), string>, now: map<(string, string), string>, request: Request,
                           id: string,
                           strategies: seq<string>)
  {
    && (forall k :: k in now <==> k in before || k in Keys(id, strategies))
    && (forall k <- now :: now[k] == if k in Keys(id, strategies) then request.secret(k.0) else before[k])
  }

  /** Credentials are created up to the first failure, and nothing else is touched. */
  lemma {:induction false} CreateAllAdds(before: map<(string, string), string>, p: Progress, plugins: Plugins,
                                         request: Request, id: string,
                                         strategies: seq<string>)
    requires p.failure.None? && AddedFor(before, p.store.credentials, request, id, p.created)
    ensures var q := CreateAll(p, plugins, request, id, strategies);
            && q.created == p.created + Succeeding(plugins, strategies)
            && q.store.users == p.store.users
            && AddedFor(before, q.store.credentials, request, id, q.created)
            && (q.failure.None? <==> Succeeding(plugins, strategies) == strategies)
    decreases |strategies|
  {
    if strategies != [] {
      var s := strategies[0];
      var next := CreateOne(p, plugins, request, id, s);
      if next.failure.None? {
        AddOne(before, p.store.credentials, request, id, p.created, s);
        CreateAllAdds(before, next, plugins, request, id, strategies[1..]);
        Regroup(p.created, [s], Succeeding(plugins, strategies[1..]));
        SucceedingStep(plugins, strategies);
      }
    }
  }

  lemma SucceedingStep(plugins: Plugins, strategies: seq<string>)
    requires strategies != [] && plugins.validates(strategies[0]).None? && plugins.creates(strategies[0]).None?
    ensures Succeeding(plugins, strategies) == [strategies[0]] + Succeeding(plugins, strategies[1..])
    ensures Succeeding(plugins, strategies) == strategies <==> Succeeding(plugins, strategies[1..]) == strategies[1..]
  {
    assert strategies == [strategies[0]] + strategies[1..];
    assert Succeeding(plugins, strategies)[1..] == Succeeding(plugins, strategies[1..]);
  }

  lemma AddOne(before: map<(string, string), string>, now: map<(string, string), string>, request: Request, id: string,
               strategies: seq<string>, s: string)
    requires AddedFor(before, now, request, id, strategies)
    ensures AddedFor(before, now[(s, id) := request.secret(s)], request, id, strategies + [s])
  {
    KeysOfLast(id, strategies, s);
  }

  /** The strategies whose deletion fails. */
  function Undeleted(plugins: Plugins, created: seq<string>): (r: seq<string>)
    ensures forall s :: s in r <==> s in created && plugins.deletes(s).Some?
  {
    if created == [] then []
    else
      var last := created[|created| - 1];
      assert created == created[..|created| - 1] + [last];
      Undeleted(plugins, created[..|created| - 1]) + if plugins.deletes(last).Some? then [last] else []
  }

  lemma {:induction false} DeleteAllErrors(store: Store, plugins: Plugins, id: string, created: seq<string>)
    ensures |DeleteAll(store, plugins, id, created).1| == |Undeleted(plugins, created)|
    ensures DeleteAll(store, plugins, id, created).0.users == store.users
  {
    if created != [] {
      DeleteAllErrors(store, plugins, id, created[..|created| - 1]);
    }
  }

  lemma {:induction false} DeleteAllLeaves(store: Store, plugins: Plugins, id: string, created: seq<string>)
    requires Distinct(created)
    ensures DeleteAll(store, plugins, id, created).0.credentials ==
            store.credentials - (Keys(id, created) - Keys(id, Undeleted(plugins, created)))
  {
    if created != [] {
      var before := created[..|created| - 1];
      var s := created[|created| - 1];
      DeleteAllLeaves(store, plugins, id, before);
      KeysOfLast(id, before, s);
      KeysOfLast(id, Undeleted(plugins, before), s);
      assert created == before + [s];
      assert (s, id) !in Keys(id, before);
    } else {
      assert Keys(id, []) == {};
      assert store.credentials - {} == store.credentials;
    }
  }

  lemma KeysOfLast(id: string, strategies: seq<string>, s: string)
    ensures Keys(id, strategies + [s]) == Keys(id, strategies) + {(s, id)}
    ensures Keys(id, strategies + []) == Keys(id, strategies)
  {
    assert strategies + [] == strategies;
  }

  /** Deleting all but some of the added credentials leaves those. */
  lemma RemovalLeaves(before: map<(string, string), string>, now: map<(string, string), string>, request: Request,
                      id: string,
                      added: seq<string>, left: seq<string>)
    requires AddedFor(before, now, request, id, added)
    requires (forall s <- left :: s in added) && (forall s <- added :: (s, id) !in before)
    ensures AddedFor(before, now - (Keys(id, added) - Keys(id, left)), request, id, left)
  {
  }

  lemma CreatedPart(store: Store, plugins: Plugins, request: Request, id: string)
    requires id !in store.users
    ensures var p := CreateAll(Begun(store, request, id), plugins, request, id, request.strategies);
            && p.created == Succeeding(plugins, request.strategies)
            && p.store.users == store.users[id := request.content]
            && AddedFor(store.credentials, p.store.credentials, request, id, p.created)
            && (p.failure.None? <==> p.created == request.strategies)
  {
    assert Keys(id, []) == {};
    CreateAllAdds(store.credentials, Begun(store, request, id), plugins, request, id, request.strategies);
    assert [] + Succeeding(plugins, request.strategies) == Succeeding(plugins, request.strategies);
  }

  /** More than one message is reported exactly when some deletion failed. */
  lemma ErrorTellsDeletions(failure: Failure, errors: seq<Error>)
    ensures var outcome := ErrorFor(failure, errors); (outcome.PluginError? && |outcome.messages| > 1) <==> errors != []
  {
    MessagesSize(errors);
  }

  /**
   * What an undone creation leaves: exactly the credentials whose deletion failed, and the user if its deletion
   * failed.
   */
  ghost predicate Undone(store: Store, plugins: Plugins, storage: UserStorage, request: Request, id: string,
                         after: Store, outcome: Outcome)
  {
    var left := Undeleted(plugins, Succeeding(plugins, request.strategies));
    && AddedFor(store.credentials, after.credentials, request, id, left)
    && after.users == (if storage.deletionFails then store.users[id := request.content] else store.users)
    && ((outcome.PluginError? && |outcome.messages| > 1) <==> left != [])
  }

  lemma WhatRollBackLeaves(store: Store, plugins: Plugins, storage: UserStorage, request: Request, id: string)
    requires Distinct(request.strategies) && FreeId(store, request.strategies, id) && id !in store.users
    requires Succeeding(plugins, request.strategies) != request.strategies
    ensures var p := CreateAll(Begun(store, request, id), plugins, request, id, request.strategies);
            && p.failure.Some?
            && Undone(store, plugins, storage, request, id,
                      RollBack(p, plugins, storage, id).0, RollBack(p, plugins, storage, id).1)
  {
    CreatedPart(store, plugins, request, id);
    var p := CreateAll(Begun(store, request, id), plugins, request, id, request.strategies);
    var errors := DeleteAll(p.store, plugins, id, p.created).1;
    DeleteAllErrors(p.store, plugins, id, p.created);
    ErrorTellsDeletions(p.failure.value, errors);
    assert store.users[id := request.content] - {id} == store.users;
    CredentialsLeft(store, plugins, request, id, p);
  }

  lemma CredentialsLeft(store: Store, plugins: Plugins, request: Request, id: string, p: Progress)
    requires Distinct(request.strategies) && FreeId(store, request.strategies, id)
    requires p.created == Succeeding(plugins, request.strategies)
    requires AddedFor(store.credentials, p.store.credentials, request, id, p.created)
    ensures AddedFor(store.credentials, DeleteAll(p.store, plugins, id, p.created).0.credentials, request, id,
            Undeleted(plugins, p.created))
  {
    SucceedingIsPart(plugins, request.strategies);
    DistinctPrefix(plugins, request.strategies);
    DeleteAllLeaves(p.store, plugins, id, p.created);
    RemovalLeaves(store.credentials, p.store.credentials, request, id, p.created, Undeleted(plugins, p.created));
  }

  lemma {:induction false} MessagesSize(errors: seq<Error>)
    ensures |Messages(errors)| == |errors|
  {
    if errors != [] {
      MessagesSize(errors[..|errors| - 1]);
    }
  }

  lemma {:induction false} DistinctPrefix(plugins: Plugins, strategies: seq<string>)
    requires Distinct(strategies)
    ensures Distinct(Succeeding(plugins, strategies))
    ensures |Succeeding(plugins, strategies)| <= |strategies|
            && Succeeding(plugins, strategies) == strategies[..|Succeeding(plugins, strategies)|]
  {
    if strategies != [] {
      DistinctPrefix(plugins, strategies[1..]);
    }
  }

  /**
   * A normal return: the id was free, and the user now has exactly the requested credentials besides what was stored.
   */
  lemma CreatedMeansComplete(store: Store, plugins: Plugins, storage: UserStorage, request: Request, horizon: nat)
    requires DrawEnds(store, plugins, request, horizon)
    ensures var (after, outcome) := Persist(store, plugins, storage, request, horizon);
            outcome.Created? ==>
              && FreeId(store, request.strategies, outcome.id) && outcome.id !in store.users
              && after.users == store.users[outcome.id := request.content]
              && AddedFor(store.credentials, after.credentials, request, outcome.id, request.strategies)
  {
    var id := ChosenId(store, plugins, request, horizon);
    ScanMeans(store, plugins, request.strategies, id);
    if id !in store.users {
      CreatedPart(store, plugins, request, id);
      RollBackReports(CreateAll(Begun(store, request, id), plugins, request, id, request.strategies), plugins, storage,
          id);
    }
  }

  lemma RollBackReports(p: Progress, plugins: Plugins, storage: UserStorage, id: string)
    ensures p.failure.Some? ==> !RollBack(p, plugins, storage, id).1.Created?
  {
  }

  /* ---------- which outcome the caller gets ---------- */

  predicate Accepts(plugins: Plugins, s: string)
  {
    plugins.validates(s).None? && plugins.creates(s).None?
  }

  lemma {:induction false} SucceedingAllIff(plugins: Plugins, strategies: seq<string>)
    ensures Succeeding(plugins, strategies) == strategies <==> forall s <- strategies :: Accepts(plugins, s)
  {
    if strategies != [] {
      var rest := strategies[1..];
      SucceedingAllIff(plugins, rest);
      assert strategies == [strategies[0]] + rest && strategies[0] in strategies;
      if Accepts(plugins, strategies[0]) {
        SucceedingStep(plugins, strategies);
      }
    }
  }

  /** The id of the request, or the first one drawn that has no credentials for the strategies checked. */
  ghost predicate IsChosen(store: Store, plugins: Plugins, request: Request, id: string)
  {
    match request.id
    case Some(given) => id == given
    case None =>
      exists k: nat ::
        && id == request.generated(k) && ScanFor(store, plugins, request.strategies, id) != Taken
        && forall j :: 0 <= j < k ==> ScanFor(store, plugins, request.strategies, request.generated(j)) == Taken
  }

  lemma ChosenIsChosen(store: Store, plugins: Plugins, request: Request, horizon: nat)
    requires DrawEnds(store, plugins, request, horizon)
    ensures IsChosen(store, plugins, request, ChosenId(store, plugins, request, horizon))
  {
    if request.id.None? {
      var k := LastDraw(store, plugins, request, 0, horizon);
      assert ChosenId(store, plugins, request, horizon) == request.generated(k);
    }
  }

  /**
   * A creation succeeds exactly when every strategy is known, has no credentials for the id and accepts the new ones,
   * the id is not that of a user, and the user storage works; the user then has the chosen id.
   */
  lemma CreatedIff(store: Store, plugins: Plugins, storage: UserStorage, request: Request, horizon: nat)
    requires DrawEnds(store, plugins, request, horizon)
    ensures var id := ChosenId(store, plugins, request, horizon);
            var outcome := Persist(store, plugins, storage, request, horizon).1;
            && IsChosen(store, plugins, request, id)
            && (outcome.Created? <==>
                  && (forall s <- request.strategies ::
                        s in plugins.known && (s, id) !in store.credentials && Accepts(plugins, s))
                  && id !in store.users && !storage.creationFails)
            && (outcome.Created? ==> outcome.id == id)
  {
    var id := ChosenId(store, plugins, request, horizon);
    ChosenIsChosen(store, plugins, request, horizon);
    ScanMeans(store, plugins, request.strategies, id);
    SucceedingAllIff(plugins, request.strategies);
    if id !in store.users {
      CreatedPart(store, plugins, request, id);
      RollBackReports(CreateAll(Begun(store, request, id), plugins, request, id, request.strategies), plugins, storage,
          id);
    }
  }

  predicate CleanFor(store: Store, plugins: Plugins, id: string, s: string)
  {
    s in plugins.known && (s, id) !in store.credentials
  }

  /** The first strategy that is unknown, or has credentials for the id, decides what the checks find. */
  lemma {:induction false} ScanStopsAt(store: Store, plugins: Plugins, strategies: seq<string>, id: string, i: nat)
    requires i < |strategies| && !CleanFor(store, plugins, id, strategies[i])
    requires forall j :: 0 <= j < i ==> CleanFor(store, plugins, id, strategies[j])
    ensures ScanFor(store, plugins, strategies, id)
            == if strategies[i] in plugins.known then Taken else Unknown(strategies[i])
  {
    if i > 0 {
      assert CleanFor(store, plugins, id, strategies[0]);
      assert forall j :: 0 <= j < |strategies| - 1 ==> strategies[1..][j] == strategies[j + 1];
      ScanStopsAt(store, plugins, strategies[1..], id, i - 1);
    }
  }

  /** A creation refused by the checks or the user storage says why, and changes nothing. */
  lemma RefusedBefore(store: Store, plugins: Plugins, storage: UserStorage, request: Request, horizon: nat)
    requires DrawEnds(store, plugins, request, horizon)
    ensures var id := ChosenId(store, plugins, request, horizon);
            var (after, outcome) := Persist(store, plugins, storage, request, horizon);
            && (forall i :: 0 <= i < |request.strategies| && !CleanFor(store, plugins, id, request.strategies[i])
                            && (forall j :: 0 <= j < i ==> CleanFor(store, plugins, id, request.strategies[j])) ==>
                  after == store && outcome == if request.strategies[i] in plugins.known then DatabaseInconsistency(id)
                                               else UnknownStrategy(request.strategies[i]))
            && ((forall s <- request.strategies :: CleanFor(store, plugins, id, s))
                && (id in store.users || storage.creationFails) ==>
                  after == store && outcome == UserNotCreated)
  {
    var id := ChosenId(store, plugins, request, horizon);
    ScanMeans(store, plugins, request.strategies, id);
    forall i | 0 <= i < |request.strategies| && !CleanFor(store, plugins, id, request.strategies[i])
               && (forall j :: 0 <= j < i ==> CleanFor(store, plugins, id, request.strategies[j]))
      ensures ScanFor(store, plugins, request.strategies, id)
              == if request.strategies[i] in plugins.known then Taken else Unknown(request.strategies[i])
    {
      ScanStopsAt(store, plugins, request.strategies, id, i);
    }
  }

  /** The messages of the deletions that fail, in the order of the strategies. */
  function DeletionMessages(plugins: Plugins, strategies: seq<string>): seq<string>
  {
    if strategies == [] then []
    else
      var error := plugins.deletes(strategies[|strategies| - 1]);
      DeletionMessages(plugins, strategies[..|strategies| - 1]) + if error.Some? then [error.value.message] else []
  }

  lemma {:induction false} DeletionsTold(store: Store, plugins: Plugins, id: string, created: seq<string>)
    ensures Messages(DeleteAll(store, plugins, id, created).1) == DeletionMessages(plugins, created)
  {
    if created != [] {
      var n := |created| - 1;
      DeletionsTold(store, plugins, id, created[..n]);
      var errors := DeleteAll(store, plugins, id, created[..n]).1;
      if plugins.deletes(created[n]).Some? {
        var more := errors + [plugins.deletes(created[n]).value];
        assert more[..|more| - 1] == errors;
      } else {
        assert DeletionMessages(plugins, created[..n]) + [] == DeletionMessages(plugins, created[..n]);
      }
    }
  }

  /** The first strategy that fails ends the creations. */
  lemma {:induction false} CreationStopsAt(p: Progress, plugins: Plugins, request: Request, id: string,
                                           strategies: seq<string>, i: nat)
    requires p.failure.None? && i < |strategies| && !Accepts(plugins, strategies[i])
    requires forall j :: 0 <= j < i ==> Accepts(plugins, strategies[j])
    ensures var q := CreateAll(p, plugins, request, id, strategies);
            var rejected := plugins.validates(strategies[i]);
            && q.created == p.created + strategies[..i]
            && q.failure == Some(if rejected.Some? then Failure(rejected.value, true)
                                 else Failure(plugins.creates(strategies[i]).value, false))
    decreases i
  {
    var next := CreateOne(p, plugins, request, id, strategies[0]);
    if i > 0 {
      var rest := strategies[1..];
      assert Accepts(plugins, strategies[0]);
      assert forall j :: 0 <= j < |rest| ==> rest[j] == strategies[j + 1];
      CreationStopsAt(next, plugins, request, id, rest, i - 1);
      Regroup(p.created, [strategies[0]], rest[..i - 1]);
      assert [strategies[0]] + rest[..i - 1] == strategies[..i];
    } else {
      assert CreateAll(next, plugins, request, id, strategies[1..]) == next;
      assert strategies[..0] == [];
      assert p.created + [] == p.created;
    }
  }

  /**
   * A creation that fails at some strategy reports its error: with those of the failed deletions if there are any,
   * otherwise as it is if it is one of the application's own, as a rejection if the validation failed, and as
   * an unexpected error if the creation did.
   */
  lemma FailureIsReported(store: Store, plugins: Plugins, storage: UserStorage, request: Request, horizon: nat, i: nat)
    requires DrawEnds(store, plugins, request, horizon) && !storage.creationFails
    requires var id := ChosenId(store, plugins, request, horizon);
             id !in store.users && forall s <- request.strategies :: CleanFor(store, plugins, id, s)
    requires i < |request.strategies| && !Accepts(plugins, request.strategies[i])
    requires forall j :: 0 <= j < i ==> Accepts(plugins, request.strategies[j])
    ensures var outcome := Persist(store, plugins, storage, request, horizon).1;
            var s := request.strategies[i];
            var deletions := DeletionMessages(plugins, request.strategies[..i]);
            var rejected := plugins.validates(s).Some?;
            var error := if rejected then plugins.validates(s).value else plugins.creates(s).value;
            outcome == if deletions != [] then PluginError([error.message] + deletions)
                       else if error.kuzzle then AsIs(error)
                       else if rejected then CredentialsRejected(error.message)
                       else PluginError([error.message])
  {
    var id := ChosenId(store, plugins, request, horizon);
    ScanMeans(store, plugins, request.strategies, id);
    CreationStopsAt(Begun(store, request, id), plugins, request, id, request.strategies, i);
    var p := CreateAll(Begun(store, request, id), plugins, request, id, request.strategies);
    assert p.created == request.strategies[..i];
    DeletionsTold(p.store, plugins, id, p.created);
    MessagesSize(DeleteAll(p.store, plugins, id, p.created).1);
  }

  /* ---------- all or nothing ---------- */

  /** The creation got past the checks and the user storage, and a credential step failed. */
  predicate FailsHalfway(store: Store, plugins: Plugins, storage: UserStorage, request: Request, horizon: nat)
    requires DrawEnds(store, plugins, request, horizon)
  {
    var id := ChosenId(store, plugins, request, horizon);
    && ScanFor(store, plugins, request.strategies, id) == Clear
    && id !in store.users && !storage.creationFails
    && Succeeding(plugins, request.strategies) != request.strategies
  }

  /**
   * All or nothing: a failed creation leaves the store as it was exactly when, if it failed halfway,
   * every deletion of the rollback succeeded, that of the user included.
   */
  lemma AllOrNothing(store: Store, plugins: Plugins, storage: UserStorage, request: Request, horizon: nat)
    requires DrawEnds(store, plugins, request, horizon) && Distinct(request.strategies)
    ensures var (after, outcome) := Persist(store, plugins, storage, request, horizon);
            !outcome.Created? ==>
              (after == store <==>
                 (FailsHalfway(store, plugins, storage, request, horizon) ==>
                    !storage.deletionFails
                      && forall s <- Succeeding(plugins, request.strategies) :: plugins.deletes(s).None?))
  {
    var id := ChosenId(store, plugins, request, horizon);
    ScanMeans(store, plugins, request.strategies, id);
    if FailsHalfway(store, plugins, storage, request, horizon) {
      WhatRollBackLeaves(store, plugins, storage, request, id);
      SucceedingIsPart(plugins, request.strategies);
      var (after, outcome) := Persist(store, plugins, storage, request, horizon);
      UndoneRestoresIff(store, plugins, storage, request, id, after, outcome);
    } else if id !in store.users {
      CreatedPart(store, plugins, request, id);
    }
  }

  lemma UndoneRestoresIff(store: Store, plugins: Plugins, storage: UserStorage, request: Request, id: string,
                          after: Store, outcome: Outcome)
    requires Undone(store, plugins, storage, request, id, after, outcome) && id !in store.users
    requires forall s <- Succeeding(plugins, request.strategies) :: (s, id) !in store.credentials
    ensures after == store <==>
            !storage.deletionFails && forall s <- Succeeding(plugins, request.strategies) :: plugins.deletes(s).None?
  {
    var created := Succeeding(plugins, request.strategies);
    var left := Undeleted(plugins, created);
    if left == [] {
      assert Keys(id, left) == {};
      assert after.credentials == store.credentials;
      forall s | s in created ensures plugins.deletes(s).None? {
        assert s !in left;
      }
    } else {
      assert left[0] in left;
      assert (left[0], id) in Keys(id, left);
      assert (left[0], id) in after.credentials && (left[0], id) !in store.credentials;
    }
    assert id in store.users[id := request.content];
  }

  /** The caller cannot tell whether the user was deleted: the outcome is the same. */
  lemma UserDeletionFailureIsSilent(store: Store, plugins: Plugins, storage: UserStorage, request: Request,
                                    horizon: nat, fails: bool)
    requires DrawEnds(store, plugins, request, horizon)
    ensures Persist(store, plugins, storage.(deletionFails := fails), request, horizon).1 ==
            Persist(store, plugins, storage, request, horizon).1
  {
  }

  /* ---------- the controller ---------- */

  class SecurityController {
    const plugins: Plugins
    const storage: UserStorage
    var users: map<string, string>
    var credentials: map<(string, string), string>

    constructor (plugins: Plugins, storage: UserStorage, store: Store)
      ensures this.plugins == plugins && this.storage == storage && View() == store
    {
      this.plugins, this.storage := plugins, storage;
      this.users, this.credentials := store.users, store.credentials;
    }

    function View(): Store
      reads this
    {
      Store(users, credentials)
    }

    method PersistUser(request: Request, ghost horizon: nat) returns (outcome: Outcome)
      requires DrawEnds(View(), plugins, request, horizon)
      modifies this
      ensures (View(), outcome) == Persist(old(View()), plugins, storage, request, horizon)
    {
      var scan, id := ChooseId(request, horizon);
      match scan
      case Unknown(s) => return UnknownStrategy(s);
      case Taken => return DatabaseInconsistency(id);
      case Clear =>
        if id in users || storage.creationFails {
          return UserNotCreated;
        }
        users := users[id := request.content];
        var failure, created := CreateCredentials(request, id);
        if failure.None? {
          return Created(id);
        }
        var deletionErrors := DeleteCredentials(id, created);
        if !storage.deletionFails {
          users := users - {id};
        }
        outcome := ErrorFor(failure.value, deletionErrors);
    }

    /** Draws ids until one has no credentials; an id given by the request is not replaced. */
    method ChooseId(request: Request, ghost horizon: nat) returns (scan: Scan, id: string)
      requires DrawEnds(View(), plugins, request, horizon)
      ensures id == ChosenId(View(), plugins, request, horizon)
      ensures scan == ScanFor(View(), plugins, request.strategies, id)
    {
      if request.id.Some? {
        id := request.id.value;
        scan := CheckId(request.strategies, id);
        return;
      }
      var draw := 0;
      id := request.generated(0);
      scan := CheckId(request.strategies, id);
      while scan == Taken
        invariant draw <= horizon && id == request.generated(draw)
        invariant scan == ScanFor(View(), plugins, request.strategies, id)
        invariant LastDraw(View(), plugins, request, 0, horizon) == LastDraw(View(), plugins, request, draw, horizon)
        decreases horizon - draw
      {
        draw := draw + 1;
        id := request.generated(draw);
        scan := CheckId(request.strategies, id);
      }
    }

    method CheckId(strategies: seq<string>, id: string) returns (scan: Scan)
      ensures scan == ScanFor(View(), plugins, strategies, id)
    {
      var i := 0;
      while i < |strategies|
        invariant i <= |strategies|
        invariant ScanFor(View(), plugins, strategies, id) == ScanFor(View(), plugins, strategies[i..], id)
      {
        assert strategies[i..][1..] == strategies[i + 1..];
        if strategies[i] !in plugins.known {
          return Unknown(strategies[i]);
        }
        if (strategies[i], id) in credentials {
          return Taken;
        }
        i := i + 1;
      }
      return Clear;
    }

    method CreateCredentials(request: Request, id: string) returns (failure: Option<Failure>, created: seq<string>)
      modifies this`credentials
      ensures Progress(View(), created, failure) ==
              CreateAll(Progress(old(View()), [], None), plugins, request, id, request.strategies)
    {
      failure, created := None, [];
      var i := 0;
      while i < |request.strategies| && failure.None?
        invariant i <= |request.strategies| && users == old(users)
        invariant CreateAll(Progress(old(View()), [], None), plugins, request, id, request.strategies) ==
                  CreateAll(Progress(View(), created, failure), plugins, request, id, request.strategies[i..])
      {
        var strategy := request.strategies[i];
        assert request.strategies[i..][1..] == request.strategies[i + 1..];
        var rejected := plugins.validates(strategy);
        if rejected.Some? {
          failure := Some(Failure(rejected.value, true));
        } else {
          var failed := plugins.creates(strategy);
          if failed.Some? {
            failure := Some(Failure(failed.value, false));
          } else {
            credentials := credentials[(strategy, id) := request.secret(strategy)];
            created := created + [strategy];
          }
        }
        i := i + 1;
      }
    }

    method DeleteCredentials(id: string, created: seq<string>) returns (errors: seq<Error>)
      modifies this`credentials
      ensures (View(), errors) == DeleteAll(old(View()), plugins, id, created)
    {
      errors := [];
      for i := 0 to |created|
        invariant users == old(users)
        invariant (View(), errors) == DeleteAll(old(View()), plugins, id, created[..i])
      {
        assert created[..i + 1][..i] == created[..i];
        var error := plugins.deletes(created[i]);
        if error.Some? {
          errors := errors + [error.value];
        } else {
          credentials := credentials - {(created[i], id)};
        }
      }
      assert created[..|created|] == created;
    }
  }
}
