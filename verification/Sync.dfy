/**
 The connector sync engine over its two tables: one item per remote object ever seen, and
 documents with unique content hashes.
 */
module Sync {
  import opened Text

  datatype Status = Synced | Skipped | Failed | Deleted

  /** What fetching and ingesting an object would meet: its bytes' hash, and whether they parse. */
  datatype Content = Unreadable | Bytes(sha: nat, parses: bool)

  datatype RemoteObject = RemoteObject(key: string, etag: string, size: nat, content: Content)

  datatype Version = Version(etag: string, size: nat)

  datatype Ref = Ref(connector: nat, key: string)

  datatype Item = Item(version: Version, status: Status, doc: Option<nat>, lastSeen: int)

  datatype Report = Report(added: nat, changed: nat, skipped: nat, errors: nat, deleted: nat)

  /** `items` is keyed by connector and object key; `docs` maps a document to its content hash. */
  datatype Db = Db(items: map<Ref, Item>, docs: map<nat, nat>, nextId: nat)

  /** Settings: the upload limit, and the time of the run. */
  datatype Run = Run(connector: nat, maxBytes: nat, now: int)

  function VersionOf(o: RemoteObject): Version {
    Version(o.etag, o.size)
  }

  function RefOf(run: Run, o: RemoteObject): Ref {
    Ref(run.connector, o.key)
  }

  // ---------------------------------------------------------------- the tables' invariant

  /** Foreign keys hold, hashes are unique, fresh ids are fresh, and deleted items hold no link. */
  ghost predicate Consistent(db: Db) {
    && (forall d | d in db.docs :: d < db.nextId)
    && (forall d, e | d in db.docs && e in db.docs && db.docs[d] == db.docs[e] :: d == e)
    && (forall r | r in db.items && db.items[r].doc.Some? :: db.items[r].doc.value in db.docs)
    && (forall r | r in db.items && db.items[r].status == Deleted :: db.items[r].doc == None)
  }

  ghost function Existing(docs: map<nat, nat>, sha: nat): (r: Option<nat>)
    ensures r.Some? ==> r.value in docs && docs[r.value] == sha
    ensures r.None? ==> forall d | d in docs :: docs[d] != sha
  {
    if d :| d in docs && docs[d] == sha then Some(d) else None
  }

  // ---------------------------------------------------------------- one object

  const ALLOWED_SUFFIXES: seq<string> := [
    ".pdf", ".txt", ".md", ".docx", ".pptx", ".csv", ".xlsx", ".tsv",
    ".png", ".jpg", ".jpeg", ".tiff", ".tif", ".webp"]

  function Lower(s: string): string {
    seq(|s|, i requires 0 <= i < |s| => if 'A' <= s[i] <= 'Z' then (s[i] as int + 32) as char else s[i])
  }

  predicate EndsWith(s: string, suffix: string) {
    |suffix| <= |s| && s[|s| - |suffix|..] == suffix
  }

  predicate Ingestible(o: RemoteObject, maxBytes: nat) {
    (exists k | 0 <= k < |ALLOWED_SUFFIXES| :: EndsWith(Lower(o.key), ALLOWED_SUFFIXES[k])) && o.size <= maxBytes
  }

  function Upsert(db: Db, run: Run, o: RemoteObject, status: Status, doc: Option<nat>): Db {
    db.(items := db.items[RefOf(run, o) := Item(VersionOf(o), status, doc, run.now)])
  }

  /** `ingest_bytes`: bytes already stored resolve to their document, new ones make one if they parse. */
  ghost function Ingested(db: Db, content: Content): (r: (Db, Option<nat>)) {
    match content
    case Unreadable => (db, None)
    case Bytes(sha, parses) =>
      match Existing(db.docs, sha)
      case Some(d) => (db, Some(d))
      case None =>
        if parses then (db.(docs := db.docs[db.nextId := sha], nextId := db.nextId + 1), Some(db.nextId))
        else (db, None)
  }

  ghost function ProcessOne(db: Db, run: Run, o: RemoteObject): Db {
    if !Ingestible(o, run.maxBytes) then Upsert(db, run, o, Skipped, None)
    else
      var (db', doc) := Ingested(db, o.content);
      Upsert(db', run, o, if doc.Some? then Synced else Failed, doc)
  }

  /** Which counter the object is reported under. */
  function Counted(r: Report, status: Status, isNew: bool): Report {
    match status
    case Skipped => r.(skipped := r.skipped + 1)
    case Failed => r.(errors := r.errors + 1)
    case _ => if isNew then r.(added := r.added + 1) else r.(changed := r.changed + 1)
  }

  ghost function StatusAfter(db: Db, run: Run, o: RemoteObject): Status {
    ProcessOne(db, run, o).items[RefOf(run, o)].status
  }

  // ---------------------------------------------------------------- one listing

  predicate IsNew(items: map<Ref, Item>, c: nat, o: RemoteObject) {
    Ref(c, o.key) !in items
  }

  predicate IsUnchanged(items: map<Ref, Item>, c: nat, o: RemoteObject) {
    Ref(c, o.key) in items && items[Ref(c, o.key)].version == VersionOf(o)
  }

  function NewOnes(items: map<Ref, Item>, c: nat, remote: seq<RemoteObject>): seq<RemoteObject> {
    if remote == [] then []
    else
      var o := remote[|remote| - 1];
      NewOnes(items, c, remote[..|remote| - 1]) + if IsNew(items, c, o) then [o] else []
  }

  function ChangedOnes(items: map<Ref, Item>, c: nat, remote: seq<RemoteObject>): seq<RemoteObject> {
    if remote == [] then []
    else
      var o := remote[|remote| - 1];
      ChangedOnes(items, c, remote[..|remote| - 1])
      + if !IsNew(items, c, o) && !IsUnchanged(items, c, o) then [o] else []
  }

  function UnchangedKeys(items: map<Ref, Item>, c: nat, remote: seq<RemoteObject>): seq<string> {
    if remote == [] then []
    else
      var o := remote[|remote| - 1];
      UnchangedKeys(items, c, remote[..|remote| - 1]) + if IsUnchanged(items, c, o) then [o.key] else []
  }

  /** The objects in the order they are handled. */
  ghost function ProcessAll(db: Db, run: Run, todo: seq<RemoteObject>): Db {
    if todo == [] then db else ProcessOne(ProcessAll(db, run, todo[..|todo| - 1]), run, todo[|todo| - 1])
  }

  /** The report after handling `todo`, whose first `newCount` objects are new. */
  ghost function ReportAll(db: Db, run: Run, todo: seq<RemoteObject>, newCount: nat): Report {
    if todo == [] then Report(0, 0, 0, 0, 0)
    else
      var init, o := todo[..|todo| - 1], todo[|todo| - 1];
      Counted(ReportAll(db, run, init, newCount), StatusAfter(ProcessAll(db, run, init), run, o), |init| < newCount)
  }

  /** Unchanged items are only seen again. */
  function Touch(items: map<Ref, Item>, run: Run, keys: seq<string>): map<Ref, Item> {
    map r | r in items ::
      if r.connector == run.connector && r.key in keys then items[r].(lastSeen := run.now) else items[r]
  }

  function Todo(items: map<Ref, Item>, c: nat, remote: seq<RemoteObject>): seq<RemoteObject> {
    NewOnes(items, c, remote) + ChangedOnes(items, c, remote)
  }

  /** `_process_objects`. */
  ghost function Processed(db: Db, run: Run, remote: seq<RemoteObject>): Db {
    var db' := ProcessAll(db, run, Todo(db.items, run.connector, remote));
    db'.(items := Touch(db'.items, run, UnchangedKeys(db.items, run.connector, remote)))
  }

  ghost function ProcessReport(db: Db, run: Run, remote: seq<RemoteObject>): Report {
    ReportAll(db, run, Todo(db.items, run.connector, remote), |NewOnes(db.items, run.connector, remote)|)
  }

  // ---------------------------------------------------------------- the sweep

  predicate Listed(remote: seq<RemoteObject>, key: string) {
    exists i | 0 <= i < |remote| :: remote[i].key == key
  }

  /** Keys of the connector that are missing from the listing and not yet marked deleted. */
  function Gone(items: map<Ref, Item>, c: nat, remote: seq<RemoteObject>): set<string> {
    set r | r in items && r.connector == c && !Listed(remote, r.key) && items[r].status != Deleted :: r.key
  }

  /** The documents linked from the gone keys. */
  function Doomed(items: map<Ref, Item>, c: nat, gone: set<string>): set<nat> {
    set r | r in items && r.connector == c && r.key in gone && items[r].doc.Some? :: items[r].doc.value
  }

  /** Deleting documents nulls every link to them; gone items are marked. */
  function Reaped(db: Db, c: nat, gone: set<string>): Db {
    var doomed := Doomed(db.items, c, gone);
    db.(docs := db.docs - doomed,
        items := map r | r in db.items ::
          if r.connector == c && r.key in gone then db.items[r].(status := Deleted, doc := None)
          else if db.items[r].doc.Some? && db.items[r].doc.value in doomed then db.items[r].(doc := None)
          else db.items[r])
  }

  ghost function Swept(db: Db, run: Run, remote: seq<RemoteObject>): Db {
    var p := Processed(db, run, remote);
    Reaped(p, run.connector, Gone(p.items, run.connector, remote))
  }

  ghost function SweepReport(db: Db, run: Run, remote: seq<RemoteObject>): Report {
    var p := Processed(db, run, remote);
    ProcessReport(db, run, remote).(deleted := |Gone(p.items, run.connector, remote)|)
  }

  // ---------------------------------------------------------------- what handling objects keeps

  lemma ProcessOneKeeps(db: Db, run: Run, o: RemoteObject)
    requires Consistent(db)
    ensures var db', ref := ProcessOne(db, run, o), RefOf(run, o);
      && Consistent(db') && db'.nextId >= db.nextId
      && ref in db'.items && db'.items[ref].version == VersionOf(o)
      && db'.items[ref].status != Deleted && db'.items[ref].lastSeen == run.now
      && (db'.items[ref].status == Synced <==> db'.items[ref].doc.Some?)
      && (forall r :: r in db'.items <==> r in db.items || r == ref)
      && (forall r | r in db.items && r != ref :: db'.items[r] == db.items[r])
      && (forall d | d in db.docs :: d in db'.docs && db'.docs[d] == db.docs[d])
  {
    hide Ingestible, Consistent, Ingested;
    if Ingestible(o, run.maxBytes) {
      IngestedKeeps(db, o.content);
      var (db', doc) := Ingested(db, o.content);
      UpsertKeeps(db', run, o, if doc.Some? then Synced else Failed, doc);
    } else {
      UpsertKeeps(db, run, o, Skipped, None);
    }
  }

  lemma IngestedKeeps(db: Db, content: Content)
    requires Consistent(db)
    ensures var (db', doc) := Ingested(db, content);
      && Consistent(db') && db'.nextId >= db.nextId && db'.items == db.items
      && (doc.Some? ==> content.Bytes? && doc.value in db'.docs && db'.docs[doc.value] == content.sha)
      && (forall d | d in db'.docs && d !in db.docs :: doc == Some(d))
      && (forall d | d in db.docs :: d in db'.docs && db'.docs[d] == db.docs[d])
  {
  }

  lemma UpsertKeeps(db: Db, run: Run, o: RemoteObject, status: Status, doc: Option<nat>)
    requires Consistent(db) && status != Deleted && (doc.Some? ==> doc.value in db.docs)
    ensures Consistent(Upsert(db, run, o, status, doc))
  {
  }

  /** No key twice. */
  ghost predicate Distinct(remote: seq<RemoteObject>) {
    forall i, j | 0 <= i < j < |remote| :: remote[i].key != remote[j].key
  }

  /** What handling `todo` does: its items are rewritten, everything else stays, documents are only added. */
  lemma {:induction false} ProcessAllKeeps(db: Db, run: Run, todo: seq<RemoteObject>)
    requires Consistent(db) && Distinct(todo)
    ensures var db' := ProcessAll(db, run, todo);
      && Consistent(db') && db'.nextId >= db.nextId
      && (forall o | o in todo :: RefOf(run, o) in db'.items && db'.items[RefOf(run, o)].version == VersionOf(o)
            && db'.items[RefOf(run, o)].status != Deleted && db'.items[RefOf(run, o)].lastSeen == run.now)
      && (forall r :: r in db'.items <==> r in db.items || (r.connector == run.connector && Listed(todo, r.key)))
      && (forall r | r in db.items && !(r.connector == run.connector && Listed(todo, r.key)) :: db'.items[r] == db.items[r])
      && (forall d | d in db.docs :: d in db'.docs && db'.docs[d] == db.docs[d])
  {
    hide ProcessOne;
    if todo != [] {
      var init, last := todo[..|todo| - 1], todo[|todo| - 1];
      ProcessAllKeeps(db, run, init);
      var mid := ProcessAll(db, run, init);
      ProcessOneKeeps(mid, run, last);
      assert forall i | 0 <= i < |init| :: init[i] == todo[i];
      forall r: Ref
        ensures Listed(todo, r.key) <==> Listed(init, r.key) || r.key == last.key
      {
        ListedSnoc(init, last, r.key);
        assert todo == init + [last];
      }
      forall o | o in todo && o != last
        ensures o in init && RefOf(run, o) != RefOf(run, last)
      {
      }
    }
  }

  lemma ListedSnoc(init: seq<RemoteObject>, o: RemoteObject, key: string)
    ensures Listed(init + [o], key) <==> Listed(init, key) || o.key == key
  {
    assert (init + [o])[|init|] == o;
    assert forall i | 0 <= i < |init| :: (init + [o])[i] == init[i];
  }

  /** What the tables say about an object that was handled: why it was skipped, and that its link is to its own bytes. */
  ghost predicate TellsTrue(db: Db, run: Run, o: RemoteObject) {
    && RefOf(run, o) in db.items
    && var item := db.items[RefOf(run, o)];
      && (item.status == Skipped <==> !Ingestible(o, run.maxBytes))
      && (item.status == Synced <==> item.doc.Some?)
      && (item.doc.Some? ==> o.content.Bytes? && item.doc.value in db.docs && db.docs[item.doc.value] == o.content.sha)
  }

  /** One object's item tells the truth, and a document that was not there before is the one it links. */
  lemma ProcessOneTellsTrue(db: Db, run: Run, o: RemoteObject)
    requires Consistent(db)
    ensures TellsTrue(ProcessOne(db, run, o), run, o)
    ensures forall d | d in ProcessOne(db, run, o).docs && d !in db.docs ::
      ProcessOne(db, run, o).items[RefOf(run, o)].doc == Some(d)
  {
    hide Ingestible, Consistent, Ingested;
    if Ingestible(o, run.maxBytes) {
      IngestedKeeps(db, o.content);
    }
  }

  lemma {:induction false} HandledTellTrue(db: Db, run: Run, todo: seq<RemoteObject>, o: RemoteObject)
    requires Consistent(db) && Distinct(todo) && o in todo
    ensures TellsTrue(ProcessAll(db, run, todo), run, o)
  {
    hide ProcessOne, Ingestible, Consistent;
    var init, last := todo[..|todo| - 1], todo[|todo| - 1];
    ProcessAllKeeps(db, run, init);
    ProcessOneTellsTrue(ProcessAll(db, run, init), run, last);
    ProcessOneKeeps(ProcessAll(db, run, init), run, last);
    if o != last {
      assert o in init && RefOf(run, o) != RefOf(run, last);
      HandledTellTrue(db, run, init, o);
    }
  }

  /** After a poll or the first half of a sweep, every new or changed object's item tells the truth about it. */
  lemma ProcessedTellTrue(db: Db, run: Run, remote: seq<RemoteObject>, o: RemoteObject)
    requires Consistent(db) && Distinct(remote) && o in remote && !IsUnchanged(db.items, run.connector, o)
    ensures TellsTrue(Processed(db, run, remote), run, o)
  {
    hide ProcessAll, Todo, UnchangedKeys, IsUnchanged, Ingestible;
    TodoIs(db.items, run.connector, remote);
    HandledTellTrue(db, run, Todo(db.items, run.connector, remote), o);
  }

  /** Some document holds these bytes. */
  ghost predicate HasBytes(docs: map<nat, nat>, sha: nat) {
    exists d :: d in docs && docs[d] == sha
  }

  /** The bytes can be had and turned into a document, or are one already. */
  ghost predicate CanLink(db: Db, run: Run, o: RemoteObject) {
    Ingestible(o, run.maxBytes) && o.content.Bytes? && (o.content.parses || HasBytes(db.docs, o.content.sha))
  }

  lemma ProcessOneLinks(db: Db, run: Run, o: RemoteObject)
    requires CanLink(db, run, o)
    ensures ProcessOne(db, run, o).items[RefOf(run, o)].doc.Some?
  {
    hide Ingestible;
  }

  lemma {:induction false} HandledLinks(db: Db, run: Run, todo: seq<RemoteObject>, o: RemoteObject)
    requires Consistent(db) && Distinct(todo) && o in todo && CanLink(db, run, o)
    ensures RefOf(run, o) in ProcessAll(db, run, todo).items
    ensures ProcessAll(db, run, todo).items[RefOf(run, o)].doc.Some?
  {
    hide ProcessOne, Ingestible, Consistent;
    var init, last := todo[..|todo| - 1], todo[|todo| - 1];
    ProcessAllKeeps(db, run, init);
    ProcessOneKeeps(ProcessAll(db, run, init), run, last);
    if o != last {
      assert o in init && RefOf(run, o) != RefOf(run, last);
      HandledLinks(db, run, init, o);
    } else {
      ProcessOneLinks(ProcessAll(db, run, init), run, o);
    }
  }

  lemma ProcessedLinks(db: Db, run: Run, remote: seq<RemoteObject>, o: RemoteObject)
    requires Consistent(db) && Distinct(remote) && o in remote && !IsUnchanged(db.items, run.connector, o) && CanLink(db, run, o)
    ensures var items := Processed(db, run, remote).items; RefOf(run, o) in items && items[RefOf(run, o)].doc.Some?
  {
    hide ProcessAll, Todo, UnchangedKeys, IsUnchanged, CanLink;
    TodoIs(db.items, run.connector, remote);
    HandledLinks(db, run, Todo(db.items, run.connector, remote), o);
  }

  /** The bytes of `o` are those of document `d`, and it is of a kind and size to ingest. */
  predicate Resolves(docs: map<nat, nat>, run: Run, o: RemoteObject, d: nat) {
    Ingestible(o, run.maxBytes) && o.content.Bytes? && d in docs && docs[d] == o.content.sha
  }

  /** A new or changed object ends up linking a document of before exactly when its bytes are that document's. */
  lemma LinkAfter(db: Db, run: Run, remote: seq<RemoteObject>, o: RemoteObject, d: nat)
    requires Consistent(db) && Distinct(remote) && o in remote && !IsUnchanged(db.items, run.connector, o) && d in db.docs
    ensures var items := Processed(db, run, remote).items;
      RefOf(run, o) in items && (items[RefOf(run, o)].doc == Some(d) <==> Resolves(db.docs, run, o, d))
  {
    hide Processed, IsUnchanged, Ingestible;
    ProcessedKeeps(db, run, remote);
    ProcessedTellTrue(db, run, remote, o);
    if Resolves(db.docs, run, o, d) {
      ProcessedLinks(db, run, remote, o);
    }
  }

  /** How many of the objects have an item of this status. */
  function CountOf(items: map<Ref, Item>, run: Run, objects: seq<RemoteObject>, status: Status): nat {
    if objects == [] then 0
    else
      var o := objects[|objects| - 1];
      CountOf(items, run, objects[..|objects| - 1], status)
      + if RefOf(run, o) in items && items[RefOf(run, o)].status == status then 1 else 0
  }

  lemma {:induction false} CountSame(a: map<Ref, Item>, b: map<Ref, Item>, run: Run, objects: seq<RemoteObject>, status: Status)
    requires forall o | o in objects :: RefOf(run, o) in a && RefOf(run, o) in b && a[RefOf(run, o)] == b[RefOf(run, o)]
    ensures CountOf(a, run, objects, status) == CountOf(b, run, objects, status)
  {
    if objects != [] {
      var init, last := objects[..|objects| - 1], objects[|objects| - 1];
      assert last in objects && forall o | o in init :: o in objects;
      CountSame(a, b, run, init, status);
    }
  }

  lemma CountSnoc(items: map<Ref, Item>, run: Run, objects: seq<RemoteObject>, o: RemoteObject, status: Status)
    ensures CountOf(items, run, objects + [o], status) == CountOf(items, run, objects, status)
      + if RefOf(run, o) in items && items[RefOf(run, o)].status == status then 1 else 0
  {
    assert (objects + [o])[..|objects|] == objects;
  }

  /** The first `n` objects, or all when there are fewer. */
  function FirstOnes(objects: seq<RemoteObject>, n: nat): seq<RemoteObject> {
    if n <= |objects| then objects[..n] else objects
  }

  function LaterOnes(objects: seq<RemoteObject>, n: nat): seq<RemoteObject> {
    if n <= |objects| then objects[n..] else []
  }

  /** The report agrees with the tables: each counter is the number of objects that ended up that way. */
  ghost predicate Matches(r: Report, items: map<Ref, Item>, run: Run, todo: seq<RemoteObject>, newCount: nat) {
    && r.skipped == CountOf(items, run, todo, Skipped)
    && r.errors == CountOf(items, run, todo, Failed)
    && r.added == CountOf(items, run, FirstOnes(todo, newCount), Synced)
    && r.changed == CountOf(items, run, LaterOnes(todo, newCount), Synced)
  }

  lemma {:induction false} ReportMatches(db: Db, run: Run, todo: seq<RemoteObject>, newCount: nat)
    requires Consistent(db) && Distinct(todo)
    ensures Matches(ReportAll(db, run, todo, newCount), ProcessAll(db, run, todo).items, run, todo, newCount)
  {
    if todo != [] {
      hide Matches, Counted, ProcessAll, ReportAll, ProcessOne, Consistent, Distinct;
      var n := |todo| - 1;
      var init, last := todo[..n], todo[n];
      assert todo[..n + 1] == todo && init + [last] == todo;
      DistinctPrefix(todo, n);
      ReportMatches(db, run, init, newCount);
      HandleOneMore(db, run, todo, newCount, n);
      HandledAreKnown(db, run, init);
      var before := ProcessAll(db, run, init);
      OnlyOneChanges(before, run, last);
      MatchesOneMore(ReportAll(db, run, init, newCount), before.items, ProcessOne(before, run, last).items,
                     run, init, last, newCount);
    }
  }

  lemma DistinctPrefix(todo: seq<RemoteObject>, n: nat)
    requires n <= |todo| && Distinct(todo)
    ensures Distinct(todo[..n])
  {
  }

  lemma HandledAreKnown(db: Db, run: Run, todo: seq<RemoteObject>)
    requires Consistent(db) && Distinct(todo)
    ensures forall o | o in todo :: RefOf(run, o) in ProcessAll(db, run, todo).items
  {
    hide ProcessAll;
    ProcessAllKeeps(db, run, todo);
  }

  lemma OnlyOneChanges(db: Db, run: Run, o: RemoteObject)
    requires Consistent(db)
    ensures var items := ProcessOne(db, run, o).items;
      && RefOf(run, o) in items && items[RefOf(run, o)].status != Deleted
      && forall q | q in db.items && q != RefOf(run, o) :: q in items && items[q] == db.items[q]
  {
    hide ProcessOne;
    ProcessOneKeeps(db, run, o);
  }

  lemma MatchesOneMore(r: Report, a: map<Ref, Item>, b: map<Ref, Item>, run: Run,
                       init: seq<RemoteObject>, last: RemoteObject, newCount: nat)
    requires Matches(r, a, run, init, newCount) && Distinct(init + [last])
    requires forall o | o in init :: RefOf(run, o) in a
    requires RefOf(run, last) in b && b[RefOf(run, last)].status != Deleted
    requires forall q | q in a && q != RefOf(run, last) :: q in b && b[q] == a[q]
    ensures Matches(Counted(r, b[RefOf(run, last)].status, |init| < newCount), b, run, init + [last], newCount)
  {
    hide CountOf;
    var todo := init + [last];
    forall o | o in init
      ensures RefOf(run, o) != RefOf(run, last)
    {
      var i :| 0 <= i < |init| && init[i] == o;
      assert todo[i].key != todo[|init|].key;
    }
    CountSame(a, b, run, init, Skipped);
    CountSnoc(b, run, init, last, Skipped);
    CountSame(a, b, run, init, Failed);
    CountSnoc(b, run, init, last, Failed);
    var first, later := FirstOnes(init, newCount), LaterOnes(init, newCount);
    CountSame(a, b, run, first, Synced);
    CountSnoc(b, run, first, last, Synced);
    CountSame(a, b, run, later, Synced);
    CountSnoc(b, run, later, last, Synced);
    if newCount <= |init| {
      assert FirstOnes(todo, newCount) == first && LaterOnes(todo, newCount) == later + [last];
    } else {
      assert FirstOnes(todo, newCount) == todo && LaterOnes(todo, newCount) == [] == later;
    }
  }

  /** The report's counters add up to the objects handled. */
  lemma {:induction false} ReportAddsUp(db: Db, run: Run, todo: seq<RemoteObject>, newCount: nat)
    ensures var r := ReportAll(db, run, todo, newCount);
      r.added + r.changed + r.skipped + r.errors == |todo| && r.deleted == 0
  {
    hide StatusAfter, ProcessAll;
    if todo != [] {
      ReportAddsUp(db, run, todo[..|todo| - 1], newCount);
    }
  }

  // ---------------------------------------------------------------- splitting a listing

  lemma {:induction false} DiffSizes(items: map<Ref, Item>, c: nat, remote: seq<RemoteObject>)
    ensures |NewOnes(items, c, remote)| + |ChangedOnes(items, c, remote)| + |UnchangedKeys(items, c, remote)| == |remote|
  {
    if remote != [] {
      DiffSizes(items, c, remote[..|remote| - 1]);
    }
  }

  ghost predicate Before(remote: seq<RemoteObject>, x: RemoteObject, y: RemoteObject) {
    exists a, b :: 0 <= a < b < |remote| && remote[a] == x && remote[b] == y
  }

  /** The elements of `xs` stand in `remote` in the same order. */
  ghost predicate InOrderOf(xs: seq<RemoteObject>, remote: seq<RemoteObject>) {
    forall i, j | 0 <= i < j < |xs| :: Before(remote, xs[i], xs[j])
  }

  lemma BeforeSnoc(remote: seq<RemoteObject>, o: RemoteObject, x: RemoteObject, y: RemoteObject)
    requires Before(remote, x, y) || (x in remote && y == o)
    ensures Before(remote + [o], x, y)
  {
    var more := remote + [o];
    if a, b :| 0 <= a < b < |remote| && remote[a] == x && remote[b] == y {
      assert more[a] == x && more[b] == y;
    } else {
      var a :| 0 <= a < |remote| && remote[a] == x;
      assert more[a] == x && more[|remote|] == y;
    }
  }

  lemma InOrderSnoc(xs: seq<RemoteObject>, remote: seq<RemoteObject>, o: RemoteObject)
    requires InOrderOf(xs, remote) && forall x | x in xs :: x in remote
    ensures InOrderOf(xs, remote + [o]) && InOrderOf(xs + [o], remote + [o])
  {
    hide Before;
    var ys := xs + [o];
    forall i, j | 0 <= i < j < |ys|
      ensures Before(remote + [o], ys[i], ys[j])
    {
      assert ys[i] in remote;
      BeforeSnoc(remote, o, ys[i], ys[j]);
    }
    assert forall i | 0 <= i < |xs| :: ys[i] == xs[i];
  }

  /** New and changed objects are handled in the order of the listing, the new ones first. */
  lemma {:induction false} HandledInOrder(items: map<Ref, Item>, c: nat, remote: seq<RemoteObject>)
    ensures InOrderOf(NewOnes(items, c, remote), remote) && InOrderOf(ChangedOnes(items, c, remote), remote)
  {
    hide IsNew, IsUnchanged, InOrderOf;
    if remote == [] {
      NothingInOrder();
    } else {
      var init, last := remote[..|remote| - 1], remote[|remote| - 1];
      assert remote == init + [last];
      HandledInOrder(items, c, init);
      forall x | x in NewOnes(items, c, init) {
        NewOnesMember(items, c, init, x);
      }
      forall x | x in ChangedOnes(items, c, init) {
        ChangedOnesMember(items, c, init, x);
      }
      var added, changed := NewOnes(items, c, init), ChangedOnes(items, c, init);
      InOrderSnoc(added, init, last);
      InOrderSnoc(changed, init, last);
      assert added + [] == added && changed + [] == changed;
    }
  }

  lemma NothingInOrder()
    ensures InOrderOf([], [])
  {
  }

  lemma {:induction false} NewOnesMember(items: map<Ref, Item>, c: nat, remote: seq<RemoteObject>, o: RemoteObject)
    ensures o in NewOnes(items, c, remote) <==> o in remote && IsNew(items, c, o)
  {
    if remote != [] {
      NewOnesMember(items, c, remote[..|remote| - 1], o);
      assert remote == remote[..|remote| - 1] + [remote[|remote| - 1]];
    }
  }

  lemma {:induction false} ChangedOnesMember(items: map<Ref, Item>, c: nat, remote: seq<RemoteObject>, o: RemoteObject)
    ensures o in ChangedOnes(items, c, remote) <==> o in remote && !IsNew(items, c, o) && !IsUnchanged(items, c, o)
  {
    if remote != [] {
      ChangedOnesMember(items, c, remote[..|remote| - 1], o);
      assert remote == remote[..|remote| - 1] + [remote[|remote| - 1]];
    }
  }

  lemma {:induction false} UnchangedKeysMember(items: map<Ref, Item>, c: nat, remote: seq<RemoteObject>, key: string)
    ensures key in UnchangedKeys(items, c, remote) <==>
      exists i :: 0 <= i < |remote| && remote[i].key == key && IsUnchanged(items, c, remote[i])
  {
    if remote != [] {
      var init, last := remote[..|remote| - 1], remote[|remote| - 1];
      UnchangedKeysMember(items, c, init, key);
      assert forall i | 0 <= i < |init| :: init[i] == remote[i];
    }
  }

  lemma {:induction false} NewOnesDistinct(items: map<Ref, Item>, c: nat, remote: seq<RemoteObject>)
    requires Distinct(remote)
    ensures Distinct(NewOnes(items, c, remote)) && Distinct(ChangedOnes(items, c, remote))
  {
    if remote != [] {
      var init, last := remote[..|remote| - 1], remote[|remote| - 1];
      NewOnesDistinct(items, c, init);
      var a, b := NewOnes(items, c, init), ChangedOnes(items, c, init);
      forall i | 0 <= i < |a|
        ensures a[i].key != last.key
      {
        NewOnesMember(items, c, init, a[i]);
      }
      forall i | 0 <= i < |b|
        ensures b[i].key != last.key
      {
        ChangedOnesMember(items, c, init, b[i]);
      }
    }
  }

  lemma TodoIs(items: map<Ref, Item>, c: nat, remote: seq<RemoteObject>)
    requires Distinct(remote)
    ensures Distinct(Todo(items, c, remote))
    ensures forall o :: o in Todo(items, c, remote) <==> o in remote && !IsUnchanged(items, c, o)
  {
    hide NewOnes, ChangedOnes;
    NewOnesDistinct(items, c, remote);
    var a, b := NewOnes(items, c, remote), ChangedOnes(items, c, remote);
    var todo := a + b;
    forall o
      ensures o in todo <==> o in remote && !IsUnchanged(items, c, o)
    {
      NewOnesMember(items, c, remote, o);
      ChangedOnesMember(items, c, remote, o);
    }
    forall i, j | 0 <= i < |a| && 0 <= j < |b|
      ensures a[i].key != b[j].key
    {
      NewOnesMember(items, c, remote, a[i]);
      ChangedOnesMember(items, c, remote, b[j]);
    }
  }

  // ---------------------------------------------------------------- after handling a listing

  /** Handling a listing leaves every listed key's item with the listing's version, and the rest alone. */
  lemma ProcessedKeeps(db: Db, run: Run, remote: seq<RemoteObject>)
    requires Consistent(db) && Distinct(remote)
    ensures var db' := Processed(db, run, remote);
      && Consistent(db')
      && (forall o | o in remote :: RefOf(run, o) in db'.items && db'.items[RefOf(run, o)].version == VersionOf(o)
            && db'.items[RefOf(run, o)].lastSeen == run.now)
      && (forall o | o in remote :: db'.items[RefOf(run, o)].status == Deleted <==>
            IsUnchanged(db.items, run.connector, o) && db.items[RefOf(run, o)].status == Deleted)
      && (forall r :: r in db'.items <==> r in db.items || (r.connector == run.connector && Listed(remote, r.key)))
      && (forall r | r in db.items && !(r.connector == run.connector && Listed(remote, r.key)) :: db'.items[r] == db.items[r])
      && (forall d | d in db.docs :: d in db'.docs && db'.docs[d] == db.docs[d])
  {
    hide ProcessAll, Todo, UnchangedKeys, IsUnchanged, Listed, Processed, Consistent;
    TodoIs(db.items, run.connector, remote);
    ProcessAllKeeps(db, run, Todo(db.items, run.connector, remote));
    TouchedKeeps(db, run, remote);
    forall o | o in remote {
      ListedAfter(db, run, remote, o);
    }
    forall r: Ref {
      UnlistedAfter(db, run, remote, r);
    }
  }

  lemma TouchedKeeps(db: Db, run: Run, remote: seq<RemoteObject>)
    requires Consistent(ProcessAll(db, run, Todo(db.items, run.connector, remote)))
    ensures Consistent(Processed(db, run, remote))
    ensures Processed(db, run, remote).docs == ProcessAll(db, run, Todo(db.items, run.connector, remote)).docs
  {
    hide ProcessAll, Todo, UnchangedKeys;
  }

  lemma ListedAfter(db: Db, run: Run, remote: seq<RemoteObject>, o: RemoteObject)
    requires Consistent(db) && Distinct(remote) && o in remote
    ensures var ref, db' := RefOf(run, o), Processed(db, run, remote);
      && ref in db'.items && db'.items[ref].version == VersionOf(o) && db'.items[ref].lastSeen == run.now
      && (db'.items[ref].status == Deleted <==> IsUnchanged(db.items, run.connector, o) && db.items[ref].status == Deleted)
  {
    hide ProcessAll, Todo, UnchangedKeys, Listed, Consistent;
    TodoIs(db.items, run.connector, remote);
    ProcessAllKeeps(db, run, Todo(db.items, run.connector, remote));
    OneObjectPerKey(db.items, run.connector, remote, o);
  }

  lemma UnlistedAfter(db: Db, run: Run, remote: seq<RemoteObject>, r: Ref)
    requires Consistent(db) && Distinct(remote)
    ensures var db' := Processed(db, run, remote);
      && (r in db'.items <==> r in db.items || (r.connector == run.connector && Listed(remote, r.key)))
      && (r in db.items && !(r.connector == run.connector && Listed(remote, r.key)) ==> r in db'.items && db'.items[r] == db.items[r])
  {
    hide ProcessAll, Todo, UnchangedKeys, Consistent, IsUnchanged;
    var todo, keys := Todo(db.items, run.connector, remote), UnchangedKeys(db.items, run.connector, remote);
    TodoIs(db.items, run.connector, remote);
    ProcessAllKeeps(db, run, todo);
    UnchangedKeysMember(db.items, run.connector, remote, r.key);
    if i :| 0 <= i < |remote| && remote[i].key == r.key {
      OneObjectPerKey(db.items, run.connector, remote, remote[i]);
      IsUnchangedKnown(db.items, run.connector, remote[i]);
    } else {
      assert forall k | 0 <= k < |todo| :: todo[k] in todo && todo[k] in remote;
    }
  }

  lemma IsUnchangedKnown(items: map<Ref, Item>, c: nat, o: RemoteObject)
    ensures IsUnchanged(items, c, o) ==> Ref(c, o.key) in items
  {
  }

  lemma OneObjectPerKey(items: map<Ref, Item>, c: nat, remote: seq<RemoteObject>, o: RemoteObject)
    requires Distinct(remote) && o in remote
    ensures var todo, keys := Todo(items, c, remote), UnchangedKeys(items, c, remote);
      if o in todo then o.key !in keys && Listed(todo, o.key) && !IsUnchanged(items, c, o)
      else o.key in keys && !Listed(todo, o.key) && IsUnchanged(items, c, o)
  {
    hide Todo, UnchangedKeys;
    TodoIs(items, c, remote);
    UnchangedKeysMember(items, c, remote, o.key);
    var todo := Todo(items, c, remote);
    if o in todo {
      var k :| 0 <= k < |todo| && todo[k] == o;
      assert todo[k].key == o.key;
    }
    if Listed(todo, o.key) {
      var k :| 0 <= k < |todo| && todo[k].key == o.key;
      assert todo[k] in todo && todo[k] in remote;
      var i :| 0 <= i < |remote| && remote[i] == todo[k];
    }
  }

  // ---------------------------------------------------------------- what a sweep establishes

  lemma ReapedKeeps(db: Db, c: nat, gone: set<string>)
    requires Consistent(db)
    ensures Consistent(Reaped(db, c, gone))
  {
    var db' := Reaped(db, c, gone);
    forall r | r in db'.items && db'.items[r].doc.Some?
      ensures db'.items[r].doc.value in db'.docs
    {
      assert db'.items[r].doc == db.items[r].doc;
    }
  }

  /**
   After a sweep every listed key has an item with the listing's version, and every other item of
   the connector is marked deleted and links no document.
   */
  lemma SweepMirrorsListing(db: Db, run: Run, remote: seq<RemoteObject>)
    requires Consistent(db) && Distinct(remote)
    ensures var db' := Swept(db, run, remote);
      && Consistent(db')
      && (forall o | o in remote :: RefOf(run, o) in db'.items && db'.items[RefOf(run, o)].version == VersionOf(o))
      && (forall r | r in db'.items && r.connector == run.connector && !Listed(remote, r.key) ::
            db'.items[r].status == Deleted && db'.items[r].doc == None)
      && (forall r :: r in db'.items <==> r in db.items || (r.connector == run.connector && Listed(remote, r.key)))
  {
    hide Processed, Consistent, Doomed, Listed, IsUnchanged;
    ProcessedKeeps(db, run, remote);
    var p := Processed(db, run, remote);
    ReapedKeeps(p, run.connector, Gone(p.items, run.connector, remote));
    forall o | o in remote
      ensures Listed(remote, o.key)
    {
      IsListed(remote, o);
    }
  }

  lemma IsListed(remote: seq<RemoteObject>, o: RemoteObject)
    requires o in remote
    ensures Listed(remote, o.key)
  {
    var i :| 0 <= i < |remote| && remote[i] == o;
    assert remote[i].key == o.key;
  }

  /** The counters and the unchanged keys account for the whole listing. */
  lemma SweepReportAddsUp(db: Db, run: Run, remote: seq<RemoteObject>)
    ensures var r := SweepReport(db, run, remote);
      r.added + r.changed + r.skipped + r.errors + |UnchangedKeys(db.items, run.connector, remote)| == |remote|
  {
    DiffSizes(db.items, run.connector, remote);
    ReportAddsUp(db, run, Todo(db.items, run.connector, remote), |NewOnes(db.items, run.connector, remote)|);
  }

  /** A sweep deletes exactly the documents linked, after ingesting, from a key missing from its own listing. */
  lemma SweepDeletesExactly(db: Db, run: Run, remote: seq<RemoteObject>, d: nat)
    requires Consistent(db) && Distinct(remote)
    ensures var p, db' := Processed(db, run, remote), Swept(db, run, remote);
      d in db'.docs <==>
        (d in p.docs && forall r | r in p.items && r.connector == run.connector && !Listed(remote, r.key) ::
           p.items[r].status == Deleted || p.items[r].doc != Some(d))
  {
    hide Processed;
    var p, c := Processed(db, run, remote), run.connector;
    var gone := Gone(p.items, c, remote);
    if d in Doomed(p.items, c, gone) {
      var r :| r in p.items && r.connector == c && r.key in gone && p.items[r].doc == Some(d);
      var q :| q in p.items && q.connector == c && !Listed(remote, q.key) && p.items[q].status != Deleted && q.key == r.key;
      assert q == r;
    }
    if r :| r in p.items && r.connector == c && !Listed(remote, r.key) && p.items[r].status != Deleted && p.items[r].doc == Some(d) {
      assert r.key in gone;
      assert d in Doomed(p.items, c, gone);
    }
  }

  /** Every document deleted was linked before the sweep from a key of this connector that is now missing. */
  lemma SweepDeletesOnlyOwn(db: Db, run: Run, remote: seq<RemoteObject>, d: nat)
    requires Consistent(db) && Distinct(remote)
    requires d in db.docs && d !in Swept(db, run, remote).docs
    ensures exists r :: r in db.items && r.connector == run.connector && !Listed(remote, r.key) && db.items[r].doc == Some(d)
  {
    hide Processed, Swept;
    ProcessedKeeps(db, run, remote);
    SweepDeletesExactly(db, run, remote, d);
    var p := Processed(db, run, remote);
    var r :| r in p.items && r.connector == run.connector && !Listed(remote, r.key)
             && p.items[r].status != Deleted && p.items[r].doc == Some(d);
    assert p.items[r] == db.items[r];
  }

  /** What two item tables must share to differ in timestamps only. */
  ghost predicate SameButSeen(a: map<Ref, Item>, b: map<Ref, Item>) {
    && (forall r :: r in a <==> r in b)
    && (forall r | r in a && r in b :: a[r].(lastSeen := 0) == b[r].(lastSeen := 0))
  }

  lemma {:induction false} AllUnchanged(items: map<Ref, Item>, c: nat, remote: seq<RemoteObject>)
    requires forall o | o in remote :: IsUnchanged(items, c, o)
    ensures NewOnes(items, c, remote) == [] && ChangedOnes(items, c, remote) == []
  {
    if remote != [] {
      assert remote[|remote| - 1] in remote;
      assert forall o | o in remote[..|remote| - 1] :: o in remote;
      AllUnchanged(items, c, remote[..|remote| - 1]);
    }
  }

  /** Sweeping the same listing again reports nothing and changes nothing but timestamps. */
  lemma SecondSweepIsQuiet(db: Db, run: Run, again: Run, remote: seq<RemoteObject>)
    requires Consistent(db) && Distinct(remote) && again.connector == run.connector
    ensures var db' := Swept(db, run, remote);
      var db'' := Swept(db', again, remote);
      && SweepReport(db', again, remote) == Report(0, 0, 0, 0, 0)
      && db''.docs == db'.docs && db''.nextId == db'.nextId && SameButSeen(db''.items, db'.items)
  {
    var db' := Swept(db, run, remote);
    SweepMirrorsListing(db, run, remote);
    NothingLeft(db', again, remote);
  }

  lemma NothingLeft(db: Db, run: Run, remote: seq<RemoteObject>)
    requires forall o | o in remote :: IsUnchanged(db.items, run.connector, o)
    requires forall r | r in db.items && r.connector == run.connector && !Listed(remote, r.key) :: db.items[r].status == Deleted
    ensures SweepReport(db, run, remote) == Report(0, 0, 0, 0, 0)
    ensures var db' := Swept(db, run, remote);
      db'.docs == db.docs && db'.nextId == db.nextId && SameButSeen(db'.items, db.items)
  {
    var c, p := run.connector, Processed(db, run, remote);
    AllUnchangedProcessed(db, run, remote);
    hide Processed, ProcessReport, Reaped;
    assert Gone(p.items, c, remote) == {};
    ReapNothing(p, c);
  }

  lemma AllUnchangedProcessed(db: Db, run: Run, remote: seq<RemoteObject>)
    requires forall o | o in remote :: IsUnchanged(db.items, run.connector, o)
    ensures var p := Processed(db, run, remote);
      p.docs == db.docs && p.nextId == db.nextId && SameButSeen(p.items, db.items)
    ensures ProcessReport(db, run, remote) == Report(0, 0, 0, 0, 0)
  {
    AllUnchanged(db.items, run.connector, remote);
    hide IsUnchanged, UnchangedKeys, NewOnes, ChangedOnes;
    assert Todo(db.items, run.connector, remote) == [];
  }

  // ---------------------------------------------------------------- what a sweep does not establish

  /** A listed key ends a sweep marked deleted exactly when it was, with the very version that is listed. */
  lemma StaysDeletedIff(db: Db, run: Run, remote: seq<RemoteObject>, o: RemoteObject)
    requires Consistent(db) && Distinct(remote) && o in remote
    ensures var ref, db' := RefOf(run, o), Swept(db, run, remote);
      ref in db'.items && (db'.items[ref].status == Deleted <==>
        ref in db.items && db.items[ref] == Item(VersionOf(o), Deleted, None, db.items[ref].lastSeen))
  {
    hide Processed;
    ProcessedKeeps(db, run, remote);
    var i :| 0 <= i < |remote| && remote[i] == o;
    assert Listed(remote, o.key);
    var p := Processed(db, run, remote);
    assert o.key !in Gone(p.items, run.connector, remote);
  }

  /** A listed key keeps its status, and keeps the document it got exactly when that survives the sweep. */
  lemma ListedKeepsLink(db: Db, run: Run, remote: seq<RemoteObject>, o: RemoteObject)
    requires Consistent(db) && Distinct(remote) && o in remote
    ensures var ref, p, db' := RefOf(run, o), Processed(db, run, remote), Swept(db, run, remote);
      && ref in p.items && ref in db'.items
      && db'.items[ref].doc == (if p.items[ref].doc.Some? && p.items[ref].doc.value in db'.docs then p.items[ref].doc else None)
      && db'.items[ref].status == p.items[ref].status
  {
    hide Processed;
    ProcessedKeeps(db, run, remote);
    IsListed(remote, o);
    var p := Processed(db, run, remote);
    assert o.key !in Gone(p.items, run.connector, remote);
  }

  /** A key of the connector that the listing lacks links document `d`. */
  ghost predicate MissingLinks(db: Db, run: Run, remote: seq<RemoteObject>, d: nat) {
    exists r :: r in db.items && r.connector == run.connector && !Listed(remote, r.key) && db.items[r].doc == Some(d)
  }

  /** Whether a sweep deletes a document can be told from the tables before it. */
  lemma DeletedIff(db: Db, run: Run, remote: seq<RemoteObject>, d: nat)
    requires Consistent(db) && Distinct(remote)
    ensures d in Swept(db, run, remote).docs <==> d in Processed(db, run, remote).docs && !MissingLinks(db, run, remote, d)
  {
    hide Processed, Swept;
    ProcessedKeeps(db, run, remote);
    SweepDeletesExactly(db, run, remote, d);
    var p := Processed(db, run, remote);
    if r :| r in db.items && r.connector == run.connector && !Listed(remote, r.key) && db.items[r].doc == Some(d) {
      assert r in p.items && p.items[r] == db.items[r];
    }
  }

  /**
   A new or changed object whose bytes make a document, or are one, is synced by a sweep. It holds
   its document afterwards exactly when no missing key of the connector links one with the same bytes.
   */
  lemma IngestedHoldsDocumentIff(db: Db, run: Run, remote: seq<RemoteObject>, o: RemoteObject)
    requires Consistent(db) && Distinct(remote) && o in remote && !IsUnchanged(db.items, run.connector, o) && CanLink(db, run, o)
    ensures var ref, db' := RefOf(run, o), Swept(db, run, remote);
      && ref in db'.items && db'.items[ref].status == Synced
      && (db'.items[ref].doc.Some? <==>
            !exists d :: d in db.docs && db.docs[d] == o.content.sha && MissingLinks(db, run, remote, d))
  {
    hide Processed, Swept, IsUnchanged, Ingestible;
    ProcessedKeeps(db, run, remote);
    ProcessedTellTrue(db, run, remote, o);
    ProcessedLinks(db, run, remote, o);
    ListedKeepsLink(db, run, remote, o);
    var p := Processed(db, run, remote);
    var d := p.items[RefOf(run, o)].doc.value;
    DeletedIff(db, run, remote, d);
    if MissingLinks(db, run, remote, d) {
      assert d in db.docs && db.docs[d] == p.docs[d];
    }
  }

  /** An unchanged object that links a document holds it exactly when no missing key of the connector links the same one. */
  lemma UnchangedHoldsDocumentIff(db: Db, run: Run, remote: seq<RemoteObject>, o: RemoteObject)
    requires Consistent(db) && Distinct(remote) && o in remote && IsUnchanged(db.items, run.connector, o)
    requires db.items[RefOf(run, o)].doc.Some?
    ensures var ref, db' := RefOf(run, o), Swept(db, run, remote);
      && ref in db'.items && db'.items[ref].status == db.items[ref].status
      && db'.items[ref].doc ==
           if MissingLinks(db, run, remote, db.items[ref].doc.value) then None else db.items[ref].doc
  {
    hide Processed, Swept;
    ProcessedKeeps(db, run, remote);
    UnchangedKeepsLink(db, run, remote, o);
    ListedKeepsLink(db, run, remote, o);
    DeletedIff(db, run, remote, db.items[RefOf(run, o)].doc.value);
  }

  // ---------------------------------------------------------------- the outcome for one object, told from its parts

  /** The last characters of the key are, one by one, those of the suffix or their capitals. */
  ghost predicate EndsIn(key: string, suffix: string) {
    |suffix| <= |key| && forall i | 0 <= i < |suffix| :: SameLetter(key[|key| - |suffix| + i], suffix[i])
  }

  predicate SameLetter(c: char, lower: char) {
    c == lower || ('a' <= lower <= 'z' && c as int == lower as int - 32)
  }

  ghost predicate HasAllowedEnding(key: string) {
    exists k | 0 <= k < |ALLOWED_SUFFIXES| :: EndsIn(key, ALLOWED_SUFFIXES[k])
  }

  predicate NoCapital(s: string) {
    forall i | 0 <= i < |s| :: !('A' <= s[i] <= 'Z')
  }

  lemma EndingByLetters(key: string, suffix: string)
    requires NoCapital(suffix)
    ensures EndsWith(Lower(key), suffix) <==> EndsIn(key, suffix)
  {
    var low := Lower(key);
    if |suffix| <= |key| {
      var from := |key| - |suffix|;
      assert forall i | 0 <= i < |suffix| :: low[from..][i] == low[from + i];
      assert forall i | 0 <= i < |suffix| :: (low[from + i] == suffix[i] <==> SameLetter(key[from + i], suffix[i]));
      if EndsIn(key, suffix) {
        assert low[from..] == suffix;
      }
    }
  }

  lemma SuffixesAreLower(k: nat)
    requires k < |ALLOWED_SUFFIXES|
    ensures NoCapital(ALLOWED_SUFFIXES[k])
  {
  }

  lemma IngestibleIff(o: RemoteObject, maxBytes: nat)
    ensures Ingestible(o, maxBytes) <==> HasAllowedEnding(o.key) && o.size <= maxBytes
  {
    hide EndsWith, EndsIn, NoCapital;
    forall k | 0 <= k < |ALLOWED_SUFFIXES|
      ensures EndsWith(Lower(o.key), ALLOWED_SUFFIXES[k]) <==> EndsIn(o.key, ALLOWED_SUFFIXES[k])
    {
      SuffixesAreLower(k);
      EndingByLetters(o.key, ALLOWED_SUFFIXES[k]);
    }
  }

  /** The tables hold no item of the object's key with its etag and size. */
  ghost predicate NewOrChanged(db: Db, run: Run, o: RemoteObject) {
    var ref := Ref(run.connector, o.key);
    !(ref in db.items && db.items[ref].version.etag == o.etag && db.items[ref].version.size == o.size)
  }

  /**
   What a listing makes of a new or changed object: skipped exactly when its key has no allowed
   ending or its size exceeds the limit; failed when it cannot be read; and synced, with a document
   that holds its bytes, when these parse.
   */
  lemma ListingOutcome(db: Db, run: Run, remote: seq<RemoteObject>, o: RemoteObject)
    requires Consistent(db) && Distinct(remote) && o in remote && NewOrChanged(db, run, o)
    ensures var ref, p := Ref(run.connector, o.key), Processed(db, run, remote);
      && ref in p.items && p.items[ref].version.etag == o.etag && p.items[ref].version.size == o.size
      && p.items[ref].lastSeen == run.now
      && (p.items[ref].status == Skipped <==> !HasAllowedEnding(o.key) || o.size > run.maxBytes)
      && (HasAllowedEnding(o.key) && o.size <= run.maxBytes && o.content.Unreadable? ==> p.items[ref].status == Failed)
      && (HasAllowedEnding(o.key) && o.size <= run.maxBytes && o.content.Bytes? && o.content.parses ==>
            p.items[ref].status == Synced && p.items[ref].doc.Some?)
      && (p.items[ref].doc.Some? ==>
            o.content.Bytes? && p.items[ref].doc.value in p.docs && p.docs[p.items[ref].doc.value] == o.content.sha)
  {
    hide Processed, Ingestible, HasAllowedEnding;
    IngestibleIff(o, run.maxBytes);
    ProcessedKeeps(db, run, remote);
    ProcessedTellTrue(db, run, remote, o);
    if CanLink(db, run, o) {
      ProcessedLinks(db, run, remote, o);
    }
  }

  /**
   The same after a sweep: such an object is synced, and it holds a document, with its bytes, exactly
   when no missing key of the connector linked one with those bytes before.
   */
  lemma SweepOutcome(db: Db, run: Run, remote: seq<RemoteObject>, o: RemoteObject)
    requires Consistent(db) && Distinct(remote) && o in remote && NewOrChanged(db, run, o)
    ensures var ref, after := Ref(run.connector, o.key), Swept(db, run, remote);
      && ref in after.items && after.items[ref].version.etag == o.etag && after.items[ref].version.size == o.size
      && (after.items[ref].status == Skipped <==> !HasAllowedEnding(o.key) || o.size > run.maxBytes)
      && (HasAllowedEnding(o.key) && o.size <= run.maxBytes && o.content.Unreadable? ==> after.items[ref].status == Failed)
      && (HasAllowedEnding(o.key) && o.size <= run.maxBytes && o.content.Bytes? && o.content.parses ==>
            && after.items[ref].status == Synced
            && (after.items[ref].doc.Some? <==>
                  !exists d :: d in db.docs && db.docs[d] == o.content.sha && MissingLinks(db, run, remote, d)))
      && (after.items[ref].doc.Some? ==>
            o.content.Bytes? && after.items[ref].doc.value in after.docs && after.docs[after.items[ref].doc.value] == o.content.sha)
  {
    ListingOutcome(db, run, remote, o);
    ListedKeepsLink(db, run, remote, o);
    ReapedDocs(db, run, remote);
    SweepMirrorsListing(db, run, remote);
    hide Processed, Swept, Ingestible, HasAllowedEnding;
    IngestibleIff(o, run.maxBytes);
    if CanLink(db, run, o) {
      IngestedHoldsDocumentIff(db, run, remote, o);
    }
  }

  lemma ReapedDocs(db: Db, run: Run, remote: seq<RemoteObject>)
    ensures var p, after := Processed(db, run, remote), Swept(db, run, remote);
      forall d | d in after.docs :: d in p.docs && p.docs[d] == after.docs[d]
  {
    hide Processed;
  }

  // ---------------------------------------------------------------- what the report says about deletions

  /** The items of the connector that are marked deleted now and were not before. */
  ghost function BecameDeleted(before: map<Ref, Item>, after: map<Ref, Item>, c: nat): set<Ref> {
    set r | r in after && r.connector == c && after[r].status == Deleted && !(r in before && before[r].status == Deleted)
  }

  lemma {:induction false} RefsOfKeys(c: nat, keys: set<string>)
    ensures |set key | key in keys :: Ref(c, key)| == |keys|
  {
    if keys != {} {
      var key :| key in keys;
      var rest := keys - {key};
      RefsOfKeys(c, rest);
      assert (set k | k in keys :: Ref(c, k)) == (set k | k in rest :: Ref(c, k)) + {Ref(c, key)};
    } else {
      assert (set k | k in keys :: Ref(c, k)) == {};
    }
  }

  /** The deleted counter is the number of items the sweep marked deleted. */
  lemma ReportCountsDeleted(db: Db, run: Run, remote: seq<RemoteObject>)
    requires Consistent(db) && Distinct(remote)
    ensures SweepReport(db, run, remote).deleted ==
      |BecameDeleted(db.items, Swept(db, run, remote).items, run.connector)|
  {
    var c, p := run.connector, Processed(db, run, remote);
    var gone := Gone(p.items, c, remote);
    RefsOfKeys(c, gone);
    forall r: Ref
      ensures r in BecameDeleted(db.items, Swept(db, run, remote).items, c) <==> r.connector == c && r.key in gone
    {
      BecomesDeletedIff(db, run, remote, r);
    }
    assert BecameDeleted(db.items, Swept(db, run, remote).items, c) == set key | key in gone :: Ref(c, key) by {
      hide Processed, Gone, Swept, BecameDeleted;
      forall r: Ref | r.connector == c && r.key in gone
        ensures r in set key | key in gone :: Ref(c, key)
      {
        assert r == Ref(c, r.key);
      }
    }
  }

  lemma BecomesDeletedIff(db: Db, run: Run, remote: seq<RemoteObject>, r: Ref)
    requires Consistent(db) && Distinct(remote)
    ensures var c := run.connector;
      r in BecameDeleted(db.items, Swept(db, run, remote).items, c) <==>
        r.connector == c && r.key in Gone(Processed(db, run, remote).items, c, remote)
  {
    hide Processed;
    ProcessedKeeps(db, run, remote);
    SweepMirrorsListing(db, run, remote);
    var c, p := run.connector, Processed(db, run, remote);
    if r.connector == c && Listed(remote, r.key) {
      var i :| 0 <= i < |remote| && remote[i].key == r.key;
      assert remote[i] in remote && RefOf(run, remote[i]) == r;
      StaysDeletedIff(db, run, remote, remote[i]);
    }
    if r.key in Gone(p.items, c, remote) {
      GoneIsKnown(p.items, c, remote, r.key);
    }
  }

  /** The document that `o` links once it is handled is `d`. */
  predicate Claims(db: Db, run: Run, o: RemoteObject, d: nat) {
    if IsUnchanged(db.items, run.connector, o) then db.items[RefOf(run, o)].doc == Some(d)
    else Resolves(db.docs, run, o, d)
  }

  /**
   Two keys may claim one document. When one of them goes missing the other, listed as new, changed
   or unchanged, loses its document, which is gone; sweeping again neither reports nor restores it.
   */
  lemma SharedDocumentStaysLost(db: Db, run: Run, again: Run, remote: seq<RemoteObject>, o: RemoteObject, d: nat)
    requires Consistent(db) && Distinct(remote) && o in remote && again.connector == run.connector
    requires Claims(db, run, o, d) && MissingLinks(db, run, remote, d)
    ensures
      var ref, once := RefOf(run, o), Swept(db, run, remote);
      var twice := Swept(once, again, remote);
      && ref in once.items && once.items[ref].doc == None && d !in once.docs
      && once.items[ref].status == (if IsUnchanged(db.items, run.connector, o) then db.items[ref].status else Synced)
      && ref in twice.items && twice.items[ref].doc == None && d !in twice.docs
      && SweepReport(once, again, remote) == Report(0, 0, 0, 0, 0)
  {
    hide Processed, Swept, Ingestible;
    if IsUnchanged(db.items, run.connector, o) {
      UnchangedHoldsDocumentIff(db, run, remote, o);
    } else {
      IngestedHoldsDocumentIff(db, run, remote, o);
    }
    SweepMirrorsListing(db, run, remote);
    DeletedIff(db, run, remote, d);
    SecondSweepIsQuiet(db, run, again, remote);
    var once := Swept(db, run, remote);
    StillUnlinked(once, again, remote, RefOf(run, o));
  }

  lemma StillUnlinked(db: Db, run: Run, remote: seq<RemoteObject>, ref: Ref)
    requires Consistent(db) && Distinct(remote) && ref in db.items && db.items[ref].doc == None
    requires SameButSeen(Swept(db, run, remote).items, db.items)
    ensures ref in Swept(db, run, remote).items && Swept(db, run, remote).items[ref].doc == None
  {
    hide Swept;
    var a := Swept(db, run, remote).items;
    assert a[ref].(lastSeen := 0) == db.items[ref].(lastSeen := 0);
  }

  /**
   An object moved to a new key: the sweep that sees the move links the new key to the document of
   the old one, and then deletes that document because the old key is gone. The new key is left
   synced with no document, and the next sweep has nothing to report.
   */
  lemma MovedObjectLosesDocument(db: Db, run: Run, again: Run, remote: seq<RemoteObject>, o: RemoteObject, oldKey: string)
    requires Consistent(db) && Distinct(remote) && o in remote && again.connector == run.connector
    requires IsNew(db.items, run.connector, o) && Ingestible(o, run.maxBytes) && o.content.Bytes?
    requires Ref(run.connector, oldKey) in db.items && !Listed(remote, oldKey)
    requires var doc := db.items[Ref(run.connector, oldKey)].doc; doc.Some? && db.docs[doc.value] == o.content.sha
    ensures
      var ref, d, once := RefOf(run, o), db.items[Ref(run.connector, oldKey)].doc.value, Swept(db, run, remote);
      && ref in once.items && once.items[ref].status == Synced && once.items[ref].doc == None
      && d !in once.docs && SweepReport(once, again, remote) == Report(0, 0, 0, 0, 0)
  {
    hide Swept, Ingestible, Listed;
    var d := db.items[Ref(run.connector, oldKey)].doc.value;
    SharedDocumentStaysLost(db, run, again, remote, o, d);
  }

  lemma UnchangedKeepsLink(db: Db, run: Run, remote: seq<RemoteObject>, o: RemoteObject)
    requires Consistent(db) && Distinct(remote) && o in remote && IsUnchanged(db.items, run.connector, o)
    ensures var ref, p := RefOf(run, o), Processed(db, run, remote);
      ref in p.items && p.items[ref].doc == db.items[ref].doc && p.items[ref].status == db.items[ref].status
  {
    hide ProcessAll, Todo, UnchangedKeys;
    var todo := Todo(db.items, run.connector, remote);
    TodoIs(db.items, run.connector, remote);
    OneObjectPerKey(db.items, run.connector, remote, o);
    ProcessAllKeeps(db, run, todo);
  }

  lemma LinksSurviveOrVanish(db: Db, run: Run, remote: seq<RemoteObject>, r: Ref)
    requires r in Processed(db, run, remote).items
    ensures var p, db' := Processed(db, run, remote), Swept(db, run, remote);
      r in db'.items && db'.items[r].doc in {None, p.items[r].doc}
  {
    hide Processed;
  }

  /** No item links document `d`. */
  ghost predicate Orphan(items: map<Ref, Item>, d: nat) {
    forall r | r in items :: items[r].doc != Some(d)
  }

  /**
   The document of a changed object is left behind, linked by nothing, exactly when no other item
   links it and the object does not come back with the same bytes: when it is skipped, cannot be
   read, or has become something else.
   */
  lemma SupersededIsOrphaned(db: Db, run: Run, o: RemoteObject, d: nat)
    requires Consistent(db) && RefOf(run, o) in db.items && db.items[RefOf(run, o)].doc == Some(d)
    ensures d in ProcessOne(db, run, o).docs
    ensures Orphan(ProcessOne(db, run, o).items, d) <==>
      && (forall r | r in db.items && r != RefOf(run, o) :: db.items[r].doc != Some(d))
      && !(Ingestible(o, run.maxBytes) && o.content.Bytes? && o.content.sha == db.docs[d])
  {
    hide ProcessOne, Ingestible;
    ProcessOneKeeps(db, run, o);
    ProcessOneTellsTrue(db, run, o);
    if Ingestible(o, run.maxBytes) && o.content.Bytes? && o.content.sha == db.docs[d] {
      ProcessOneLinks(db, run, o);
    }
    var items := ProcessOne(db, run, o).items;
    assert forall r | r in db.items && r != RefOf(run, o) :: r in items && items[r] == db.items[r];
  }

  /** A new or changed object of this key has the bytes of document `d`. */
  ghost predicate Reclaimed(db: Db, run: Run, remote: seq<RemoteObject>, r: Ref, d: nat) {
    exists o :: o in remote && RefOf(run, o) == r && !IsUnchanged(db.items, run.connector, o) && Resolves(db.docs, run, o, d)
  }

  /** The item is rewritten when this listing is handled. */
  ghost predicate Rewritten(db: Db, run: Run, remote: seq<RemoteObject>, r: Ref) {
    exists o :: o in remote && RefOf(run, o) == r && !IsUnchanged(db.items, run.connector, o)
  }

  /**
   After a listing a document of before is linked by nothing exactly when every item that linked it
   was rewritten and no new or changed object has its bytes.
   */
  lemma OrphanedIff(db: Db, run: Run, remote: seq<RemoteObject>, d: nat)
    requires Consistent(db) && Distinct(remote) && d in db.docs
    ensures Orphan(Processed(db, run, remote).items, d) <==>
      && (forall r | r in db.items && db.items[r].doc == Some(d) :: Rewritten(db, run, remote, r))
      && (forall o | o in remote && !IsUnchanged(db.items, run.connector, o) :: !Resolves(db.docs, run, o, d))
  {
    hide Processed, IsUnchanged, Resolves, Rewritten;
    var p := Processed(db, run, remote);
    ProcessedKeeps(db, run, remote);
    forall r | r in p.items
      ensures p.items[r].doc == Some(d) <==>
        if Rewritten(db, run, remote, r) then Reclaimed(db, run, remote, r, d)
        else r in db.items && db.items[r].doc == Some(d)
    {
      ItemAfter(db, run, remote, r, d);
    }
    forall o | o in remote && !IsUnchanged(db.items, run.connector, o)
      ensures Rewritten(db, run, remote, RefOf(run, o)) && RefOf(run, o) in p.items
    {
      IsRewritten(db, run, remote, o);
    }
  }

  lemma IsRewritten(db: Db, run: Run, remote: seq<RemoteObject>, o: RemoteObject)
    requires o in remote && !IsUnchanged(db.items, run.connector, o)
    ensures Rewritten(db, run, remote, RefOf(run, o))
  {
  }

  lemma ItemAfter(db: Db, run: Run, remote: seq<RemoteObject>, r: Ref, d: nat)
    requires Consistent(db) && Distinct(remote) && d in db.docs && r in Processed(db, run, remote).items
    ensures Processed(db, run, remote).items[r].doc == Some(d) <==>
      if Rewritten(db, run, remote, r) then Reclaimed(db, run, remote, r, d)
      else r in db.items && db.items[r].doc == Some(d)
  {
    hide Processed, Resolves, Ingestible;
    ProcessedKeeps(db, run, remote);
    if o :| o in remote && RefOf(run, o) == r && !IsUnchanged(db.items, run.connector, o) {
      LinkAfter(db, run, remote, o, d);
      forall q | q in remote && RefOf(run, q) == r
        ensures q == o
      {
        SameKeySame(remote, q, o);
      }
    } else if r.connector == run.connector && Listed(remote, r.key) {
      var i :| 0 <= i < |remote| && remote[i].key == r.key;
      assert remote[i] in remote && RefOf(run, remote[i]) == r;
      UnchangedKeepsLink(db, run, remote, remote[i]);
    }
  }

  lemma SameKeySame(remote: seq<RemoteObject>, a: RemoteObject, b: RemoteObject)
    requires Distinct(remote) && a in remote && b in remote && a.key == b.key
    ensures a == b
  {
    var i :| 0 <= i < |remote| && remote[i] == a;
    var j :| 0 <= j < |remote| && remote[j] == b;
  }

  /** The deletions of a sweep change nothing about that: it leaves a document unlinked exactly when the listing did. */
  lemma SweepOrphansIff(db: Db, run: Run, remote: seq<RemoteObject>, d: nat)
    requires Consistent(db) && Distinct(remote) && d in db.docs
    ensures d in Swept(db, run, remote).docs && Orphan(Swept(db, run, remote).items, d) <==>
      Orphan(Processed(db, run, remote).items, d)
  {
    var p, c := Processed(db, run, remote), run.connector;
    ProcessedKeeps(db, run, remote);
    ReapOrphansIff(p, c, Gone(p.items, c, remote), d);
    hide Processed, Reaped, Gone;
  }

  lemma ReapOrphansIff(db: Db, c: nat, gone: set<string>, d: nat)
    requires d in db.docs
    ensures d in Reaped(db, c, gone).docs && Orphan(Reaped(db, c, gone).items, d) <==> Orphan(db.items, d)
  {
    var after := Reaped(db, c, gone);
    var doomed := Doomed(db.items, c, gone);
    if Orphan(db.items, d) {
      assert d !in doomed;
    } else {
      var r :| r in db.items && db.items[r].doc == Some(d);
      hide Doomed;
      ReapedAt(db, c, gone, r);
      if d !in doomed {
        NotDoomed(db.items, c, gone, r, d);
        assert after.items[r].doc == Some(d);
      }
    }
  }

  lemma NotDoomed(items: map<Ref, Item>, c: nat, gone: set<string>, r: Ref, d: nat)
    requires r in items && items[r].doc == Some(d) && d !in Doomed(items, c, gone)
    ensures !(r.connector == c && r.key in gone)
  {
  }

  /** A document no item links stays so through a sweep exactly when no new or changed object has its bytes. */
  lemma OrphanSurvives(db: Db, run: Run, remote: seq<RemoteObject>, d: nat)
    requires Consistent(db) && Distinct(remote) && d in db.docs && Orphan(db.items, d)
    ensures d in Swept(db, run, remote).docs && Orphan(Swept(db, run, remote).items, d) <==>
      forall o | o in remote && !IsUnchanged(db.items, run.connector, o) :: !Resolves(db.docs, run, o, d)
  {
    hide Processed, Swept, IsUnchanged, Resolves, Rewritten;
    OrphanedIff(db, run, remote, d);
    SweepOrphansIff(db, run, remote, d);
  }

  // ---------------------------------------------------------------- any history of runs

  datatype Command = Poll(run: Run, remote: seq<RemoteObject>) | Sweep(run: Run, remote: seq<RemoteObject>)

  ghost function History(db: Db, commands: seq<Command>): Db {
    if commands == [] then db
    else
      var before := History(db, commands[..|commands| - 1]);
      match commands[|commands| - 1]
      case Poll(run, remote) => Processed(before, run, remote)
      case Sweep(run, remote) => Swept(before, run, remote)
  }

  /** The tables stay consistent through every history of polls and sweeps by any connectors. */
  lemma {:induction false} HistoryStaysConsistent(db: Db, commands: seq<Command>)
    requires Consistent(db) && forall k | 0 <= k < |commands| :: Distinct(commands[k].remote)
    ensures Consistent(History(db, commands))
  {
    hide Processed, Swept, Consistent;
    if commands != [] {
      var init, last := commands[..|commands| - 1], commands[|commands| - 1];
      HistoryStaysConsistent(db, init);
      var before := History(db, init);
      match last {
        case Poll(run, remote) => ProcessedKeeps(before, run, remote);
        case Sweep(run, remote) => SweepMirrorsListing(before, run, remote);
      }
    }
  }

  // ---------------------------------------------------------------- the engine itself

  /** What `diff_objects` reads of a connector's items. */
  function Known(items: map<Ref, Item>, c: nat): map<string, Version> {
    map r | r in items && r.connector == c :: r.key := items[r].version
  }

  lemma KnownIs(items: map<Ref, Item>, c: nat, key: string)
    ensures key in Known(items, c) <==> Ref(c, key) in items
    ensures key in Known(items, c) && Ref(c, key) in items ==> Known(items, c)[key] == items[Ref(c, key)].version
  {
  }

  method DiffObjects(remote: seq<RemoteObject>, known: map<string, Version>, ghost items: map<Ref, Item>, ghost c: nat)
    returns (added: seq<RemoteObject>, changed: seq<RemoteObject>, same: seq<string>)
    requires known == Known(items, c)
    ensures added == NewOnes(items, c, remote) && changed == ChangedOnes(items, c, remote)
    ensures same == UnchangedKeys(items, c, remote)
  {
    hide Known;
    added, changed, same := [], [], [];
    for i := 0 to |remote|
      invariant added == NewOnes(items, c, remote[..i]) && changed == ChangedOnes(items, c, remote[..i])
      invariant same == UnchangedKeys(items, c, remote[..i])
    {
      assert remote[..i + 1][..i] == remote[..i];
      var obj := remote[i];
      KnownIs(items, c, obj.key);
      if obj.key !in known {
        added := added + [obj];
      } else if known[obj.key] != VersionOf(obj) {
        changed := changed + [obj];
      } else {
        same := same + [obj.key];
      }
    }
    assert remote[..|remote|] == remote;
  }

  /** Every link to a deleted document becomes null. */
  function Unlinked(items: map<Ref, Item>, d: nat): map<Ref, Item> {
    map r | r in items :: if items[r].doc == Some(d) then items[r].(doc := None) else items[r]
  }

  /** One key of the deletion loop: its document goes, if it is still there, and its item is marked. */
  function Dropped(db: Db, ref: Ref, doc: Option<nat>): Db
    requires ref in db.items
  {
    var items := if doc.Some? && doc.value in db.docs then Unlinked(db.items, doc.value) else db.items;
    var docs := if doc.Some? then db.docs - {doc.value} else db.docs;
    db.(items := items[ref := items[ref].(status := Deleted, doc := None)], docs := docs)
  }

  function LinksOf(items: map<Ref, Item>, c: nat): (r: map<string, Option<nat>>)
    ensures forall key :: key in r <==> Ref(c, key) in items
    ensures forall key | key in r :: r[key] == items[Ref(c, key)].doc
  {
    map r | r in items && r.connector == c :: r.key := items[r].doc
  }

  lemma ReapNothing(db: Db, c: nat)
    ensures Reaped(db, c, {}) == db
  {
    assert Doomed(db.items, c, {}) == {};
    assert db.docs - {} == db.docs;
  }

  lemma GoneIsKnown(items: map<Ref, Item>, c: nat, remote: seq<RemoteObject>, key: string)
    requires key in Gone(items, c, remote)
    ensures Ref(c, key) in items
  {
    var r :| r in items && r.connector == c && r.key == key;
    assert r == Ref(c, key);
  }

  lemma DoomedOneMore(items: map<Ref, Item>, c: nat, done: set<string>, key: string)
    requires Ref(c, key) in items
    ensures var doc := items[Ref(c, key)].doc;
      Doomed(items, c, done + {key}) == Doomed(items, c, done) + if doc.Some? then {doc.value} else {}
  {
    var doc := items[Ref(c, key)].doc;
    var a, b := Doomed(items, c, done), Doomed(items, c, done + {key});
    forall d | d in b && d !in a
      ensures doc == Some(d)
    {
      var r :| r in items && r.connector == c && r.key in done + {key} && items[r].doc == Some(d);
      assert r.key !in done;
      assert r == Ref(c, key);
    }
    if doc.Some? {
      assert doc.value in b;
    }
  }

  /** Deleting one key more, with the link read at the start, even if its document is gone by now. */
  lemma ReapOneMore(db: Db, c: nat, done: set<string>, key: string)
    requires Consistent(db) && Ref(c, key) in db.items
    ensures Ref(c, key) in Reaped(db, c, done).items
    ensures Dropped(Reaped(db, c, done), Ref(c, key), db.items[Ref(c, key)].doc) == Reaped(db, c, done + {key})
  {
    hide Doomed, Consistent;
    var ref := Ref(c, key);
    var doc := db.items[ref].doc;
    var mid := Reaped(db, c, done);
    var a, b := Dropped(mid, ref, doc), Reaped(db, c, done + {key});
    DoomedOneMore(db.items, c, done, key);
    DropDocs(db.docs, Doomed(db.items, c, done), doc);
    forall r | r in db.items
      ensures r in a.items && a.items[r] == b.items[r]
    {
      ReapOneItem(db, c, done, key, r);
    }
    assert a.items == b.items;
  }

  lemma DropDocs(docs: map<nat, nat>, doomed: set<nat>, doc: Option<nat>)
    ensures docs - (doomed + if doc.Some? then {doc.value} else {}) ==
      if doc.Some? then docs - doomed - {doc.value} else docs - doomed
  {
  }

  lemma ReapOneItem(db: Db, c: nat, done: set<string>, key: string, r: Ref)
    requires Consistent(db) && Ref(c, key) in db.items && r in db.items
    ensures Ref(c, key) in Reaped(db, c, done).items
    ensures
      var a := Dropped(Reaped(db, c, done), Ref(c, key), db.items[Ref(c, key)].doc).items;
      r in a && r in Reaped(db, c, done + {key}).items && a[r] == Reaped(db, c, done + {key}).items[r]
  {
    hide Doomed, Reaped, Dropped;
    var ref := Ref(c, key);
    var doc := db.items[ref].doc;
    assert r.connector == c && r.key == key ==> r == ref;
    DoomedOneMore(db.items, c, done, key);
    ReapedAt(db, c, done, r);
    ReapedAt(db, c, done, ref);
    ReapedAt(db, c, done + {key}, r);
    DroppedAt(Reaped(db, c, done), ref, doc, r);
  }

  lemma ReapedAt(db: Db, c: nat, gone: set<string>, r: Ref)
    requires r in db.items
    ensures
      var db', item := Reaped(db, c, gone), db.items[r];
      && db'.docs == db.docs - Doomed(db.items, c, gone) && r in db'.items
      && db'.items[r] ==
           if r.connector == c && r.key in gone then item.(status := Deleted, doc := None)
           else if item.doc.Some? && item.doc.value in Doomed(db.items, c, gone) then item.(doc := None)
           else item
  {
    hide Doomed;
  }

  lemma DroppedAt(db: Db, ref: Ref, doc: Option<nat>, r: Ref)
    requires ref in db.items && r in db.items
    ensures
      var db', item := Dropped(db, ref, doc), db.items[r];
      && db'.docs == (if doc.Some? then db.docs - {doc.value} else db.docs) && r in db'.items
      && db'.items[r] ==
           if r == ref then item.(status := Deleted, doc := None)
           else if doc.Some? && doc.value in db.docs && item.doc == doc then item.(doc := None)
           else item
  {
  }

  lemma NothingHandled(db: Db, run: Run, newCount: nat)
    ensures ProcessAll(db, run, []) == db && ReportAll(db, run, [], newCount) == Report(0, 0, 0, 0, 0)
  {
  }

  lemma HandleOneMore(db: Db, run: Run, todo: seq<RemoteObject>, newCount: nat, i: nat)
    requires i < |todo| && Consistent(db) && Distinct(todo)
    ensures var before := ProcessAll(db, run, todo[..i]);
      && Consistent(before)
      && ProcessAll(db, run, todo[..i + 1]) == ProcessOne(before, run, todo[i])
      && ReportAll(db, run, todo[..i + 1], newCount)
           == Counted(ReportAll(db, run, todo[..i], newCount), StatusAfter(before, run, todo[i]), i < newCount)
  {
    hide ProcessOne, StatusAfter, Counted, Consistent;
    assert todo[..i + 1][..i] == todo[..i];
    ProcessAllKeeps(db, run, todo[..i]);
  }

  class Store {
    var items: map<Ref, Item>
    var docs: map<nat, nat>
    var nextId: nat

    ghost function Contents(): Db
      reads this
    {
      Db(items, docs, nextId)
    }

    constructor ()
      ensures Contents() == Db(map[], map[], 0) && Consistent(Contents())
    {
      items, docs, nextId := map[], map[], 0;
    }

    /** One item, committed on its own. */
    method UpsertItem(run: Run, o: RemoteObject, status: Status, doc: Option<nat>)
      modifies this
      ensures Contents() == Upsert(old(Contents()), run, o, status, doc)
    {
      items := items[RefOf(run, o) := Item(VersionOf(o), status, doc, run.now)];
    }

    /** The document for these bytes, or None when fetching or ingesting them fails. */
    method IngestBytes(content: Content) returns (doc: Option<nat>)
      requires Consistent(Contents())
      modifies this
      ensures (Contents(), doc) == Ingested(old(Contents()), content)
    {
      match content {
        case Unreadable => doc := None;
        case Bytes(sha, parses) =>
          if d :| d in docs && docs[d] == sha {
            doc := Some(d);
          } else if parses {
            docs := docs[nextId := sha];
            doc := Some(nextId);
            nextId := nextId + 1;
          } else {
            doc := None;
          }
      }
    }

    /** One new or changed object: skipped, failed, or linked to its document. */
    method ProcessObject(run: Run, o: RemoteObject, isNew: bool, report: Report) returns (report': Report)
      requires Consistent(Contents())
      modifies this
      ensures Contents() == ProcessOne(old(Contents()), run, o)
      ensures report' == Counted(report, StatusAfter(old(Contents()), run, o), isNew)
    {
      hide Existing;
      if !Ingestible(o, run.maxBytes) {
        UpsertItem(run, o, Skipped, None);
        return report.(skipped := report.skipped + 1);
      }
      var doc := IngestBytes(o.content);
      if doc.None? {
        UpsertItem(run, o, Failed, None);
        return report.(errors := report.errors + 1);
      }
      UpsertItem(run, o, Synced, doc);
      report' := if isNew then report.(added := report.added + 1) else report.(changed := report.changed + 1);
    }

    method ProcessObjects(run: Run, remote: seq<RemoteObject>) returns (report: Report)
      requires Consistent(Contents()) && Distinct(remote)
      modifies this
      ensures Contents() == Processed(old(Contents()), run, remote)
      ensures report == ProcessReport(old(Contents()), run, remote)
    {
      hide ProcessOne, StatusAfter, Consistent, Counted, ProcessAll, ReportAll, Known, NewOnes, ChangedOnes, UnchangedKeys;
      ghost var before := Contents();
      var added, changed, same := DiffObjects(remote, Known(items, run.connector), items, run.connector);
      var todo := added + changed;
      TodoIs(before.items, run.connector, remote);
      report := Report(0, 0, 0, 0, 0);
      NothingHandled(before, run, |added|);
      for i := 0 to |todo|
        invariant Contents() == ProcessAll(before, run, todo[..i])
        invariant report == ReportAll(before, run, todo[..i], |added|)
      {
        HandleOneMore(before, run, todo, |added|, i);
        report := ProcessObject(run, todo[i], i < |added|, report);
      }
      assert todo[..|todo|] == todo;
      items := Touch(items, run, same);
    }

    /** Polls: new and changed objects only. */
    method SyncIncremental(run: Run, remote: seq<RemoteObject>) returns (report: Report)
      requires Consistent(Contents()) && Distinct(remote)
      modifies this
      ensures Contents() == Processed(old(Contents()), run, remote)
      ensures report == ProcessReport(old(Contents()), run, remote)
    {
      report := ProcessObjects(run, remote);
      ReportAddsUp(old(Contents()), run, Todo(old(Contents()).items, run.connector, remote),
                   |NewOnes(old(Contents()).items, run.connector, remote)|);
      report := report.(deleted := 0);
    }

    /** Polls, then marks what is missing and deletes its documents, key by key. */
    method FullSweep(run: Run, remote: seq<RemoteObject>) returns (report: Report)
      requires Consistent(Contents()) && Distinct(remote)
      modifies this
      ensures Contents() == Swept(old(Contents()), run, remote)
      ensures report == SweepReport(old(Contents()), run, remote)
    {
      hide Processed, ProcessReport, Consistent, Reaped, Dropped, Gone, LinksOf;
      report := ProcessObjects(run, remote);
      ghost var p := Contents();
      ProcessedKeeps(old(Contents()), run, remote);
      var c := run.connector;
      var docIdByKey := LinksOf(items, c);
      var gone := Gone(items, c, remote);
      var pending := gone;
      ReapNothing(p, c);
      assert gone - gone == {};
      while pending != {}
        invariant pending <= gone
        invariant Contents() == Reaped(p, c, gone - pending)
        decreases pending
      {
        var key :| key in pending;
        GoneIsKnown(p.items, c, remote, key);
        ReapOneMore(p, c, gone - pending, key);
        DeleteKey(Ref(c, key), docIdByKey[key]);
        assert gone - (pending - {key}) == (gone - pending) + {key};
        pending := pending - {key};
      }
      assert gone - {} == gone;
      report := report.(deleted := |gone|);
    }

    /** The body of the deletion loop; `doc` is the link read when the loop began. */
    method DeleteKey(ref: Ref, doc: Option<nat>)
      requires ref in items
      modifies this
      ensures Contents() == Dropped(old(Contents()), ref, doc)
    {
      if doc.Some? && doc.value in docs {
        items := Unlinked(items, doc.value);
        docs := docs - {doc.value};
      }
      items := items[ref := items[ref].(status := Deleted, doc := None)];
    }
  }
}
