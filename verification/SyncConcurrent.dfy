/**
 Several connectors syncing at once: every commit is a step of its own, and a connector's lock
 admits one run at a time. Uploads and failures may strike between any two commits.
 */
module SyncConcurrent {
  import opened Text
  import opened Sync

  /** Where a run stands with the object at the head of its list. */
  datatype Stage =
    | Idle
    | Missing                        // looked up: no document with these bytes
    | Linking(doc: Option<nat>)      // resolved; the item is not yet committed

  datatype Phase =
    | Processing(todo: seq<RemoteObject>, stage: Stage, same: seq<string>)
    | Reading
    | Deleting(links: map<string, Option<nat>>)

  /** A run holding its connector's lock. */
  datatype Task = Task(run: Run, sweep: bool, remote: seq<RemoteObject>, phase: Phase)

  /** `tasks` has an entry for every connector whose lock is held. */
  datatype State = State(db: Db, tasks: map<nat, Task>)

  /** What a run can do next, one commit or one read at a time. */
  datatype Step =
    | Skip                   // the object is not of a kind or size to ingest
    | Fetch                  // download and look up by hash; nothing is written
    | Insert                 // store the new document
    | Commit                 // write the item
    | TouchSame              // note that the unchanged items were seen
    | ReadItems              // a sweep reads its items back
    | Delete(key: string)    // one missing key
    | Finish
    | Abort                  // an exception ends the run

  datatype Action = Start(task: Task) | Take(c: nat, step: Step) | Upload(sha: nat)

  /** How a run begins: its listing diffed against the items as they are now. */
  function Started(db: Db, run: Run, sweep: bool, remote: seq<RemoteObject>): Task {
    Task(run, sweep, remote,
         Processing(Todo(db.items, run.connector, remote), Idle, UnchangedKeys(db.items, run.connector, remote)))
  }

  predicate AtHead(phase: Phase, stage: Stage) {
    phase.Processing? && phase.todo != [] && phase.stage == stage
  }

  predicate StepEnabled(db: Db, task: Task, step: Step) {
    var phase, run := task.phase, task.run;
    match step
    case Skip => AtHead(phase, Idle) && !Ingestible(phase.todo[0], run.maxBytes)
    case Fetch => AtHead(phase, Idle) && Ingestible(phase.todo[0], run.maxBytes)
    case Insert => AtHead(phase, Missing) && phase.todo[0].content.Bytes?
    case Commit => phase.Processing? && phase.stage.Linking? && phase.todo != []
    case TouchSame => phase.Processing? && phase.todo == []
    case ReadItems => phase == Reading && task.sweep
    case Delete(key) => phase.Deleting? && key in phase.links && Ref(run.connector, key) in db.items
    case Finish => (phase == Reading && !task.sweep) || phase == Deleting(map[])
    case Abort => true
  }

  /** A new document, unless the unique hash already has one: then that one wins. */
  ghost function Stored(db: Db, sha: nat): (Db, nat) {
    match Existing(db.docs, sha)
    case Some(d) => (db, d)
    case None => (db.(docs := db.docs[db.nextId := sha], nextId := db.nextId + 1), db.nextId)
  }

  /** What the look-up by hash resolves to. */
  ghost function LookedUp(db: Db, content: Content): Stage {
    match content
    case Unreadable => Linking(None)
    case Bytes(sha, parses) =>
      match Existing(db.docs, sha)
      case Some(d) => Linking(Some(d))
      case None => if parses then Missing else Linking(None)
  }

  /** The tables after a step, and the phase the run is in, or None when it has released its lock. */
  ghost function StepTask(db: Db, task: Task, step: Step): (Db, Option<Phase>)
    requires StepEnabled(db, task, step)
  {
    var phase, run := task.phase, task.run;
    match step
    case Skip => (Upsert(db, run, phase.todo[0], Skipped, None), Some(phase.(todo := phase.todo[1..])))
    case Fetch => (db, Some(phase.(stage := LookedUp(db, phase.todo[0].content))))
    case Insert =>
      // The look-up may be stale by now; the unique constraint decides.
      var r := Stored(db, phase.todo[0].content.sha);
      (r.0, Some(phase.(stage := Linking(Some(r.1)))))
    case Commit =>
      var doc := phase.stage.doc;
      if doc.Some? && doc.value !in db.docs then (db, None)  // a foreign key violation ends the run
      else
        (Upsert(db, run, phase.todo[0], if doc.Some? then Synced else Failed, doc),
         Some(phase.(todo := phase.todo[1..], stage := Idle)))
    case TouchSame => (db.(items := Touch(db.items, run, phase.same)), Some(Reading))
    case ReadItems => (db, Some(Deleting(GoneLinks(db.items, run.connector, task.remote))))
    case Delete(key) =>
      (Dropped(db, Ref(run.connector, key), phase.links[key]), Some(Deleting(phase.links - {key})))
    case Finish => (db, None)
    case Abort => (db, None)
  }

  ghost predicate Enabled(s: State, a: Action) {
    match a
    case Start(task) =>
      && task.run.connector !in s.tasks && Distinct(task.remote)
      && task == Started(s.db, task.run, task.sweep, task.remote)
    case Take(c, step) => c in s.tasks && StepEnabled(s.db, s.tasks[c], step)
    case Upload(sha) => true
  }

  ghost function After(s: State, a: Action): State
    requires Enabled(s, a)
  {
    match a
    case Start(task) => s.(tasks := s.tasks[task.run.connector := task])
    case Upload(sha) => s.(db := Stored(s.db, sha).0)
    case Take(c, step) =>
      var r := StepTask(s.db, s.tasks[c], step);
      match r.1
      case Some(phase) => State(r.0, s.tasks[c := s.tasks[c].(phase := phase)])
      case None => State(r.0, s.tasks - {c})
  }

  /** The links of the missing keys, read once before the deletion loop. */
  function GoneLinks(items: map<Ref, Item>, c: nat, remote: seq<RemoteObject>): (r: map<string, Option<nat>>)
    ensures r.Keys == Gone(items, c, remote)
    ensures forall key | key in r :: Ref(c, key) in items && r[key] == items[Ref(c, key)].doc
              && items[Ref(c, key)].status != Deleted && !Listed(remote, key)
  {
    var gone := Gone(items, c, remote);
    GoneAreKnown(items, c, remote);
    map key | key in gone :: items[Ref(c, key)].doc
  }

  lemma GoneAreKnown(items: map<Ref, Item>, c: nat, remote: seq<RemoteObject>)
    ensures forall key | key in Gone(items, c, remote) ::
      Ref(c, key) in items && items[Ref(c, key)].status != Deleted && !Listed(remote, key)
  {
    forall key | key in Gone(items, c, remote)
      ensures Ref(c, key) in items && items[Ref(c, key)].status != Deleted && !Listed(remote, key)
    {
      var r :| r in items && r.connector == c && !Listed(remote, r.key) && items[r].status != Deleted && r.key == key;
      assert r == Ref(c, key);
    }
  }

  // ---------------------------------------------------------------- what every step keeps

  /**
   A link read before the deletion loop is still the item's link, unless its document is gone, in
   which case the item links nothing.
   */
  ghost predicate LinkHolds(db: Db, c: nat, remote: seq<RemoteObject>, key: string, doc: Option<nat>) {
    && Ref(c, key) in db.items && !Listed(remote, key) && db.items[Ref(c, key)].status != Deleted
    && (doc.Some? ==> doc.value < db.nextId)
    && (db.items[Ref(c, key)].doc == doc ||
        (db.items[Ref(c, key)].doc == None && doc.Some? && doc.value !in db.docs))
  }

  ghost predicate TaskHolds(db: Db, c: nat, task: Task) {
    && task.run.connector == c && Distinct(task.remote)
    && match task.phase
       case Processing(todo, stage, same) => stage.Linking? && stage.doc.Some? ==> stage.doc.value < db.nextId
       case Reading => true
       case Deleting(links) => forall key | key in links :: LinkHolds(db, c, task.remote, key, links[key])
  }

  ghost predicate Inv(s: State) {
    Consistent(s.db) && forall c | c in s.tasks :: TaskHolds(s.db, c, s.tasks[c])
  }

  /** How one connector's step may change the tables, as seen by the others. */
  ghost predicate Elsewhere(db: Db, db': Db, c: nat) {
    && db'.nextId >= db.nextId
    && (forall d | d in db.docs :: d in db'.docs ==> db'.docs[d] == db.docs[d])
    && (forall d | d in db'.docs && d !in db.docs :: d >= db.nextId)
    && (forall r | r in db.items && r.connector != c ::
          && r in db'.items && db'.items[r].status == db.items[r].status
          && (db'.items[r].doc == db.items[r].doc ||
              (db'.items[r].doc == None && db.items[r].doc.Some? && db.items[r].doc.value !in db'.docs)))
  }

  lemma OthersHold(db: Db, db': Db, c: nat, e: nat, task: Task)
    requires Elsewhere(db, db', c) && e != c && TaskHolds(db, e, task)
    ensures TaskHolds(db', e, task)
  {
  }

  lemma StoredKeeps(db: Db, sha: nat, c: nat)
    requires Consistent(db)
    ensures var r := Stored(db, sha);
      Consistent(r.0) && Elsewhere(db, r.0, c) && r.1 in r.0.docs && r.0.docs[r.1] == sha && r.0.items == db.items
      && (forall d | d in db.docs :: d in r.0.docs)
  {
  }

  lemma DroppedKeeps(db: Db, ref: Ref, doc: Option<nat>)
    requires Consistent(db) && ref in db.items
    ensures Consistent(Dropped(db, ref, doc)) && Elsewhere(db, Dropped(db, ref, doc), ref.connector)
  {
    forall r | r in db.items {
      DroppedAt(db, ref, doc, r);
    }
    DroppedAt(db, ref, doc, ref);
    DroppedOnly(db, ref, doc);
    FewerDocsKeep(db, Dropped(db, ref, doc), ref.connector);
  }

  lemma DroppedOnly(db: Db, ref: Ref, doc: Option<nat>)
    requires ref in db.items
    ensures Dropped(db, ref, doc).items.Keys == db.items.Keys && Dropped(db, ref, doc).nextId == db.nextId
  {
  }

  /** Removing documents, with the links to them, keeps the tables consistent. */
  lemma FewerDocsKeep(db: Db, db': Db, c: nat)
    requires Consistent(db) && db'.items.Keys == db.items.Keys && db'.nextId == db.nextId
    requires forall d | d in db'.docs :: d in db.docs && db'.docs[d] == db.docs[d]
    requires forall r | r in db.items ::
      if r.connector == c && db'.items[r].status == Deleted then db'.items[r].doc == None
      else db'.items[r].status == db.items[r].status &&
           db'.items[r].doc == if db.items[r].doc.Some? && db.items[r].doc.value in db'.docs then db.items[r].doc else None
    ensures Consistent(db') && Elsewhere(db, db', c)
  {
  }

  /** The links still pending survive the deletion of one key. */
  lemma PendingHold(db: Db, c: nat, remote: seq<RemoteObject>, links: map<string, Option<nat>>, key: string)
    requires Consistent(db) && key in links && Ref(c, key) in db.items
    requires forall k | k in links :: LinkHolds(db, c, remote, k, links[k])
    ensures forall k | k in links && k != key :: LinkHolds(Dropped(db, Ref(c, key), links[key]), c, remote, k, links[k])
  {
    var db' := Dropped(db, Ref(c, key), links[key]);
    forall k | k in links && k != key
      ensures LinkHolds(db', c, remote, k, links[k])
    {
      assert LinkHolds(db, c, remote, k, links[k]);
      assert Ref(c, k) != Ref(c, key);
    }
  }

  /** Every step of a run keeps the tables consistent, the run's own bookkeeping true, and disturbs no other run. */
  lemma StepKeeps(db: Db, c: nat, task: Task, step: Step)
    requires Consistent(db) && TaskHolds(db, c, task) && StepEnabled(db, task, step)
    ensures var r := StepTask(db, task, step);
      Consistent(r.0) && Elsewhere(db, r.0, c) && (r.1.Some? ==> TaskHolds(r.0, c, task.(phase := r.1.value)))
  {
    hide Ingestible, Touch, Dropped, Existing, Todo, Consistent, Elsewhere, Upsert, LookedUp;
    SameTables(db, c);
    match step {
      case Skip => UpsertHolds(db, task.run, task.phase.todo[0], Skipped, None);
      case Fetch => LookedUpHolds(db, task.phase.todo[0].content);
      case Commit =>
        var doc := task.phase.stage.doc;
        if doc.None? || doc.value in db.docs {
          UpsertHolds(db, task.run, task.phase.todo[0], if doc.Some? then Synced else Failed, doc);
        }
      case ReadItems => GoneLinksHold(db, c, task.remote);
      case Insert =>
        StoredKeeps(db, task.phase.todo[0].content.sha, c);
        ExistsBelow(Stored(db, task.phase.todo[0].content.sha).0);
      case Delete(key) =>
        DroppedKeeps(db, Ref(c, key), task.phase.links[key]);
        PendingHold(db, c, task.remote, task.phase.links, key);
      case TouchSame => TouchKeeps(db, task.run, task.phase.same);
      case _ =>
    }
  }

  lemma SameTables(db: Db, c: nat)
    ensures Elsewhere(db, db, c)
  {
  }

  lemma ExistsBelow(db: Db)
    requires Consistent(db)
    ensures forall d | d in db.docs :: d < db.nextId
  {
  }

  lemma UpsertHolds(db: Db, run: Run, o: RemoteObject, status: Status, doc: Option<nat>)
    requires Consistent(db) && status != Deleted && (doc.Some? ==> doc.value in db.docs)
    ensures Consistent(Upsert(db, run, o, status, doc)) && Elsewhere(db, Upsert(db, run, o, status, doc), run.connector)
  {
    UpsertKeeps(db, run, o, status, doc);
  }

  lemma LookedUpHolds(db: Db, content: Content)
    requires Consistent(db)
    ensures var stage := LookedUp(db, content);
      stage.Linking? && stage.doc.Some? ==> stage.doc.value < db.nextId
  {
  }

  lemma GoneLinksHold(db: Db, c: nat, remote: seq<RemoteObject>)
    requires Consistent(db)
    ensures var links := GoneLinks(db.items, c, remote);
      forall key | key in links :: LinkHolds(db, c, remote, key, links[key])
  {
    hide Listed;
  }

  lemma TouchKeeps(db: Db, run: Run, keys: seq<string>)
    requires Consistent(db)
    ensures var db' := db.(items := Touch(db.items, run, keys)); Consistent(db') && Elsewhere(db, db', run.connector)
  {
  }

  /** The invariant survives every step of every connector, in any order, with failures anywhere. */
  lemma InvHolds(s: State, a: Action)
    requires Inv(s) && Enabled(s, a)
    ensures Inv(After(s, a))
  {
    hide Consistent, TaskHolds, StepTask, StepEnabled, Stored, Elsewhere;
    match a {
      case Start(task) => StartHolds(s.db, task);
      case Upload(sha) =>
        // An upload is no connector's step, so every run is "another".
        forall c | c in s.tasks
          ensures TaskHolds(Stored(s.db, sha).0, c, s.tasks[c])
        {
          StoredKeeps(s.db, sha, c + 1);
          OthersHold(s.db, Stored(s.db, sha).0, c + 1, c, s.tasks[c]);
        }
        StoredKeeps(s.db, sha, 0);
      case Take(c, step) =>
        StepKeeps(s.db, c, s.tasks[c], step);
        var db' := StepTask(s.db, s.tasks[c], step).0;
        forall e | e in s.tasks && e != c
          ensures TaskHolds(db', e, s.tasks[e])
        {
          OthersHold(s.db, db', c, e, s.tasks[e]);
        }
    }
  }

  lemma StartHolds(db: Db, task: Task)
    requires Distinct(task.remote) && task == Started(db, task.run, task.sweep, task.remote)
    ensures TaskHolds(db, task.run.connector, task)
  {
  }

  /** A state sequence in which each state follows from the one before by some enabled action. */
  ghost predicate Behaviour(states: seq<State>, actions: seq<Action>) {
    && |states| == |actions| + 1
    && forall k | 0 <= k < |actions| :: Enabled(states[k], actions[k]) && states[k + 1] == After(states[k], actions[k])
  }

  /**
   In every behaviour from consistent tables with no run in progress: links point to existing
   documents, hashes are unique, and deleted items hold no link.
   */
  lemma {:induction false} AlwaysConsistent(states: seq<State>, actions: seq<Action>, k: nat)
    requires Behaviour(states, actions) && k < |states|
    requires Consistent(states[0].db) && states[0].tasks == map[]
    ensures Inv(states[k])
  {
    hide Consistent, After, Enabled;
    if k > 0 {
      AlwaysConsistent(states, actions, k - 1);
      InvHolds(states[k - 1], actions[k - 1]);
    }
  }

  /** Documents disappear only in a sweep's deletion step, and only one linked at that moment from the missing key. */
  lemma DeletesOnlyOwn(s: State, a: Action, d: nat)
    requires Inv(s) && Enabled(s, a) && d in s.db.docs && d !in After(s, a).db.docs
    ensures a.Take? && a.step.Delete?
    ensures var ref := Ref(a.c, a.step.key);
      && !Listed(s.tasks[a.c].remote, ref.key)
      && ref in s.db.items && s.db.items[ref].doc == Some(d) && s.db.items[ref].status != Deleted
  {
    hide Ingestible, Touch, Todo;
    if a.Upload? {
      StoredKeeps(s.db, a.sha, 0);
    } else if a.Take? {
      var task := s.tasks[a.c];
      assert TaskHolds(s.db, a.c, task);
      match a.step {
        case Insert => StoredKeeps(s.db, task.phase.todo[0].content.sha, a.c);
        case Delete(key) => assert LinkHolds(s.db, a.c, task.remote, key, task.phase.links[key]);
        case _ =>
      }
    }
  }

  /** A run is cut short by its own commit exactly when the document it resolved was deleted meanwhile. */
  lemma CommitFailsIff(s: State, c: nat)
    requires Inv(s) && c in s.tasks && StepEnabled(s.db, s.tasks[c], Commit)
    ensures var s' := After(s, Take(c, Commit));
      var doc, o := s.tasks[c].phase.stage.doc, s.tasks[c].phase.todo[0];
      && (c !in s'.tasks <==> doc.Some? && doc.value !in s.db.docs)
      && (c !in s'.tasks ==> s'.db == s.db)
      && (c in s'.tasks ==> s'.db.items[Ref(c, o.key)].doc == doc)
  {
  }

  /** A lock admits one run: no start while the connector has a task, and no other connector's step ends it. */
  lemma LockIsExclusive(s: State, a: Action, c: nat)
    requires Enabled(s, a) && c in s.tasks
    ensures a.Start? ==> a.task.run.connector != c && After(s, a).tasks[c] == s.tasks[c]
    ensures a.Take? && a.c != c ==> c in After(s, a).tasks && After(s, a).tasks[c] == s.tasks[c]
  {
    hide StepTask, StepEnabled;
  }

  /** The step that releases the lock of connector `c`, if its run is in progress before it. */
  ghost predicate Releases(states: seq<State>, actions: seq<Action>, c: nat, k: nat) {
    && k < |actions| && k + 1 < |states| && actions[k].Take? && actions[k].c == c
    && c in states[k].tasks && c !in states[k + 1].tasks
  }

  /** A run in progress is in progress until a step of its own releases the lock. */
  lemma {:induction false} HeldUntilReleased(states: seq<State>, actions: seq<Action>, c: nat, i: nat, j: nat)
    requires Behaviour(states, actions) && i <= j < |states| && c in states[i].tasks
    ensures c in states[j].tasks || exists k: nat :: i <= k < j && Releases(states, actions, c, k)
    decreases j
  {
    hide Enabled, After;
    if i < j {
      HeldUntilReleased(states, actions, c, i, j - 1);
      if c in states[j - 1].tasks {
        LockIsExclusive(states[j - 1], actions[j - 1], c);
        UploadKeepsTasks(states[j - 1], actions[j - 1]);
        if c !in states[j].tasks {
          assert Releases(states, actions, c, j - 1);
        }
      }
    }
  }

  lemma UploadKeepsTasks(s: State, a: Action)
    requires Enabled(s, a)
    ensures a.Upload? ==> After(s, a).tasks == s.tasks
    ensures a.Start? ==> a.task.run.connector in After(s, a).tasks && forall c | c in s.tasks :: c in After(s, a).tasks
  {
  }

  /** In every behaviour, between two starts of one connector the first run releases the lock by a step of its own. */
  lemma RunsDoNotOverlap(states: seq<State>, actions: seq<Action>, c: nat, i: nat, j: nat)
    requires Behaviour(states, actions) && i < j < |actions|
    requires actions[i].Start? && actions[i].task.run.connector == c
    requires actions[j].Start? && actions[j].task.run.connector == c
    ensures exists k: nat :: i < k < j && Releases(states, actions, c, k)
  {
    hide StepTask, StepEnabled, Started;
    UploadKeepsTasks(states[i], actions[i]);
    HeldUntilReleased(states, actions, c, i + 1, j);
    assert Enabled(states[j], actions[j]);
  }

  // ---------------------------------------------------------------- an undisturbed run

  /** The steps of one run with nothing in between, up to the release of its lock. */
  ghost predicate RunsTo(db: Db, task: Task, steps: seq<Step>, final: Db)
    decreases |steps|
  {
    && steps != [] && StepEnabled(db, task, steps[0])
    && var r := StepTask(db, task, steps[0]);
       match r.1
       case None => |steps| == 1 && final == r.0
       case Some(phase) => RunsTo(r.0, task.(phase := phase), steps[1..], final)
  }

  /** In an undisturbed run a resolved document is still there, and an object is at hand to link it to. */
  ghost predicate Undisturbed(db: Db, task: Task) {
    && Consistent(db) && TaskHolds(db, task.run.connector, task)
    && (task.phase.Processing? && task.phase.stage != Idle ==> task.phase.todo != [])
    && (task.phase.Processing? && task.phase.stage == Missing ==> task.phase.todo[0].content.Bytes?)
    && (task.phase.Processing? && task.phase.stage.Linking? && task.phase.stage.doc.Some? ==>
          task.phase.stage.doc.value in db.docs)
  }

  /** The sequential engine's result for what is left of the list. */
  ghost function RestProcessed(db: Db, run: Run, todo: seq<RemoteObject>, stage: Stage): Db
    requires stage != Idle ==> todo != []
    requires stage == Missing ==> todo[0].content.Bytes?
  {
    match stage
    case Idle => ProcessAll(db, run, todo)
    case Missing =>
      var r := Stored(db, todo[0].content.sha);
      ProcessAll(Upsert(r.0, run, todo[0], Synced, Some(r.1)), run, todo[1..])
    case Linking(doc) =>
      ProcessAll(Upsert(db, run, todo[0], if doc.Some? then Synced else Failed, doc), run, todo[1..])
  }

  ghost function Closed(db: Db, task: Task): Db {
    var c := task.run.connector;
    if task.sweep then Reaped(db, c, Gone(db.items, c, task.remote)) else db
  }

  /** What the sequential engine makes of the rest of the run. */
  ghost function Sequential(db: Db, task: Task): Db
    requires Undisturbed(db, task)
  {
    match task.phase
    case Processing(todo, stage, same) =>
      var p := RestProcessed(db, task.run, todo, stage);
      Closed(p.(items := Touch(p.items, task.run, same)), task)
    case Reading => Closed(db, task)
    case Deleting(links) => Reaped(db, task.run.connector, links.Keys)
  }

  lemma {:induction false} ProcessAllCons(db: Db, run: Run, o: RemoteObject, rest: seq<RemoteObject>)
    ensures ProcessAll(db, run, [o] + rest) == ProcessAll(ProcessOne(db, run, o), run, rest)
  {
    hide ProcessOne;
    if rest == [] {
      assert [o] + rest == [o] && [o][..0] == [];
      assert ProcessAll(db, run, [o]) == ProcessOne(ProcessAll(db, run, [o][..0]), run, o);
    } else {
      ProcessAllCons(db, run, o, rest[..|rest| - 1]);
      assert ([o] + rest)[..|rest|] == [o] + rest[..|rest| - 1];
    }
  }

  /** Resolving and linking the object at the head is the sequential engine's treatment of it. */
  lemma HeadProcessed(db: Db, run: Run, todo: seq<RemoteObject>)
    requires Consistent(db) && todo != []
    ensures var o := todo[0];
      if !Ingestible(o, run.maxBytes) then
        ProcessAll(db, run, todo) == ProcessAll(Upsert(db, run, o, Skipped, None), run, todo[1..])
      else
        var stage := LookedUp(db, o.content);
        (stage == Missing ==> o.content.Bytes?) && RestProcessed(db, run, todo, stage) == ProcessAll(db, run, todo)
  {
    hide Ingestible, ProcessAll;
    var o := todo[0];
    assert todo == [o] + todo[1..];
    ProcessAllCons(db, run, o, todo[1..]);
  }

  lemma LinksStillReaped(db: Db, c: nat, remote: seq<RemoteObject>, links: map<string, Option<nat>>, key: string)
    requires Consistent(db) && key in links && Ref(c, key) in db.items
    requires forall k | k in links :: LinkHolds(db, c, remote, k, links[k])
    ensures Reaped(Dropped(db, Ref(c, key), links[key]), c, links.Keys - {key}) == Reaped(db, c, links.Keys)
  {
    var ref := Ref(c, key);
    var db' := Dropped(db, ref, links[key]);
    var rest, all := links.Keys - {key}, links.Keys;
    assert LinkHolds(db, c, remote, key, links[key]);
    assert Dropped(db, ref, links[key]).docs == Dropped(db, ref, db.items[ref].doc).docs;
    assert Dropped(db, ref, links[key]).items == Dropped(db, ref, db.items[ref].doc).items;
    DropCommutes(db, c, rest, key);
    assert rest + {key} == all;
  }

  /** Dropping one key before the others or after them comes to the same. */
  lemma DropCommutes(db: Db, c: nat, rest: set<string>, key: string)
    requires Consistent(db) && Ref(c, key) in db.items && key !in rest
    ensures Reaped(Dropped(db, Ref(c, key), db.items[Ref(c, key)].doc), c, rest) == Reaped(db, c, rest + {key})
  {
    hide Doomed, Consistent;
    var ref := Ref(c, key);
    var doc := db.items[ref].doc;
    DoomedOneMore(db.items, c, rest, key);
    DoomedAfterDrop(db, c, rest, key);
    DropDocsFirst(db.docs, Doomed(db.items, c, rest), doc);
    var a, b := Reaped(Dropped(db, ref, doc), c, rest), Reaped(db, c, rest + {key});
    forall r | r in db.items
      ensures r in a.items && a.items[r] == b.items[r]
    {
      DropCommutesAt(db, c, rest, key, r);
    }
    assert a.items == b.items;
  }

  lemma DropDocsFirst(docs: map<nat, nat>, doomed: set<nat>, doc: Option<nat>)
    ensures
      var dropped := if doc.Some? then {doc.value} else {};
      (if doc.Some? then docs - {doc.value} else docs) - (doomed - dropped) == docs - (doomed + dropped)
  {
  }

  lemma DropCommutesAt(db: Db, c: nat, rest: set<string>, key: string, r: Ref)
    requires Consistent(db) && Ref(c, key) in db.items && key !in rest && r in db.items
    ensures
      var a, b := Reaped(Dropped(db, Ref(c, key), db.items[Ref(c, key)].doc), c, rest), Reaped(db, c, rest + {key});
      r in a.items && r in b.items && a.items[r] == b.items[r]
  {
    hide Doomed, Reaped, Dropped;
    var ref := Ref(c, key);
    var doc := db.items[ref].doc;
    assert r.connector == c && r.key == key ==> r == ref;
    DoomedOneMore(db.items, c, rest, key);
    DoomedAfterDrop(db, c, rest, key);
    DroppedAt(db, ref, doc, r);
    ReapedAt(Dropped(db, ref, doc), c, rest, r);
    ReapedAt(db, c, rest + {key}, r);
  }

  lemma DoomedAfterDrop(db: Db, c: nat, rest: set<string>, key: string)
    requires Consistent(db) && Ref(c, key) in db.items && key !in rest
    ensures var doc := db.items[Ref(c, key)].doc;
      Doomed(Dropped(db, Ref(c, key), doc).items, c, rest) == Doomed(db.items, c, rest) - if doc.Some? then {doc.value} else {}
  {
    var ref := Ref(c, key);
    var doc := db.items[ref].doc;
    var items := Dropped(db, ref, doc).items;
    var a, b := Doomed(items, c, rest), Doomed(db.items, c, rest) - if doc.Some? then {doc.value} else {};
    forall d | d in b
      ensures d in a
    {
      var r :| r in db.items && r.connector == c && r.key in rest && db.items[r].doc == Some(d);
      assert r != ref && items[r] == db.items[r];
    }
    forall d | d in a
      ensures d in b
    {
      var r :| r in items && r.connector == c && r.key in rest && items[r].doc == Some(d);
      assert r != ref && items[r] == db.items[r];
    }
    assert a == b;
  }

  /** A step of an undisturbed run that does not fail leaves what the sequential engine makes of the rest as it was. */
  lemma StepIsSequential(db: Db, task: Task, step: Step)
    requires Undisturbed(db, task) && StepEnabled(db, task, step) && step != Abort
    ensures var r := StepTask(db, task, step);
      match r.1
      case Some(phase) =>
        Undisturbed(r.0, task.(phase := phase)) && Sequential(r.0, task.(phase := phase)) == Sequential(db, task)
      case None => r.0 == Sequential(db, task)
  {
    hide Ingestible, Touch, Existing, Todo, ProcessAll, Dropped, Reaped, Gone, Consistent;
    var run, c := task.run, task.run.connector;
    StepKeeps(db, c, task, step);
    match step {
      case Skip => HeadProcessed(db, run, task.phase.todo);
      case Fetch =>
        HeadProcessed(db, run, task.phase.todo);
        FoundExists(db, task.phase.todo[0].content);
      case Insert => StoredKeeps(db, task.phase.todo[0].content.sha, c);
      case Commit =>
      case TouchSame => NothingToProcess(db, run);
      case ReadItems =>
      case Delete(key) => LinksStillReaped(db, c, task.remote, task.phase.links, key);
      case Finish => FinishedIsClosed(db, task);
    }
  }

  lemma FoundExists(db: Db, content: Content)
    ensures var stage := LookedUp(db, content);
      (stage.Linking? && stage.doc.Some? ==> stage.doc.value in db.docs) && (stage == Missing ==> content.Bytes?)
  {
  }

  lemma NothingToProcess(db: Db, run: Run)
    ensures ProcessAll(db, run, []) == db
  {
  }

  lemma FinishedIsClosed(db: Db, task: Task)
    requires Undisturbed(db, task) && StepEnabled(db, task, Finish)
    ensures Sequential(db, task) == db
  {
    if task.phase.Deleting? {
      ReapNothing(db, task.run.connector);
      assert task.phase.links.Keys == {};
    }
  }

  lemma {:induction false} RunIsSequential(db: Db, task: Task, steps: seq<Step>, final: Db)
    requires Undisturbed(db, task) && RunsTo(db, task, steps, final) && Abort !in steps
    ensures final == Sequential(db, task)
    decreases |steps|
  {
    hide StepTask, StepEnabled, Sequential, Undisturbed;
    StepIsSequential(db, task, steps[0]);
    var r := StepTask(db, task, steps[0]);
    if r.1.Some? {
      RunIsSequential(r.0, task.(phase := r.1.value), steps[1..], final);
    }
  }

  /**
   However the steps of an undisturbed run are scheduled, and in whatever order the missing keys
   are deleted, it ends with the tables the sequential engine computes.
   */
  lemma UndisturbedRunRefinesEngine(db: Db, run: Run, sweep: bool, remote: seq<RemoteObject>, steps: seq<Step>, final: Db)
    requires Consistent(db) && Distinct(remote)
    requires RunsTo(db, Started(db, run, sweep, remote), steps, final) && Abort !in steps
    ensures final == if sweep then Swept(db, run, remote) else Processed(db, run, remote)
  {
    hide ProcessAll, Todo, UnchangedKeys, RunsTo, Touch, Gone, Reaped;
    RunIsSequential(db, Started(db, run, sweep, remote), steps, final);
  }

  function PhaseRank(phase: Phase): nat {
    if phase.Processing? then 2 else if phase.Reading? then 1 else 0
  }

  function StageRank(phase: Phase): nat {
    if !phase.Processing? || phase.stage.Linking? then 0 else if phase.stage == Missing then 1 else 2
  }

  /** The next step of an undisturbed run. */
  ghost function NextStep(task: Task): Step {
    match task.phase
    case Processing(todo, stage, same) =>
      if todo == [] then TouchSame
      else if stage == Missing then Insert
      else if stage.Linking? then Commit
      else if Ingestible(todo[0], task.run.maxBytes) then Fetch
      else Skip
    case Reading => if task.sweep then ReadItems else Finish
    case Deleting(links) => if key :| key in links then Delete(key) else Finish
  }

  lemma NextStepEnabled(db: Db, task: Task)
    requires Undisturbed(db, task)
    ensures StepEnabled(db, task, NextStep(task)) && NextStep(task) != Abort
  {
    hide Ingestible, Consistent;
    if task.phase.Deleting? {
      assert forall key | key in task.phase.links :: LinkHolds(db, task.run.connector, task.remote, key, task.phase.links[key]);
      if task.phase.links.Keys == {} {
        assert task.phase.links == map[];
      }
    }
  }

  /** An undisturbed run never gets stuck and always ends. */
  lemma {:induction false} RunCompletes(db: Db, task: Task) returns (steps: seq<Step>, final: Db)
    requires Undisturbed(db, task)
    ensures RunsTo(db, task, steps, final) && Abort !in steps
    decreases PhaseRank(task.phase), if task.phase.Processing? then |task.phase.todo| else 0, StageRank(task.phase),
              if task.phase.Deleting? then task.phase.links.Keys else {}
  {
    hide Undisturbed, Ingestible, Existing, Touch, Dropped, Upsert, Stored, Sequential;
    var step := NextStep(task);
    NextStepEnabled(db, task);
    StepIsSequential(db, task, step);
    var r := StepTask(db, task, step);
    match r.1 {
      case None =>
        steps, final := [step], r.0;
      case Some(phase) =>
        var rest;
        rest, final := RunCompletes(r.0, task.(phase := phase));
        steps := [step] + rest;
        assert steps[1..] == rest;
    }
  }
}
