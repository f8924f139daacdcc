/**
 Access rules: group grants materialised from a similarity predicate, when a rule is confirmed
 and when a document is ingested, and the visibility that follows from them.
 */
module AccessRules {
  import opened Text

  /** How similar a chunk is to a query, and the floor it must reach. */
  datatype Measure<!V> = Measure(similarity: (V, V) -> real, floor: real)

  datatype Principal = Public | User(id: nat) | Group(id: nat)

  /** Who wrote a grant: a person or the identity provider, or a rule. */
  datatype Source = Local | FromRule(rule: nat)

  datatype Grant = Grant(doc: nat, principal: Principal, source: Source)

  datatype RuleState<V> = Draft | Confirmed(embedding: V)

  datatype Rule<V> = Rule(query: string, group: nat, state: RuleState<V>)

  datatype Document<V> = Document(ready: bool, chunks: seq<V>)

  /**
   The tables; `acl` is a list of rows. `missed` is history: the pairs of document and rule that a
   failed check at ingestion skipped.
   */
  datatype Db<V> = Db(
    groups: set<nat>, rules: map<nat, Rule<V>>, docs: map<nat, Document<V>>, acl: seq<Grant>,
    missed: set<(nat, nat)>)

  // ---------------------------------------------------------------- the predicate, twice

  /** The ingestion side: some chunk reaches the floor. */
  predicate Clears<V>(m: Measure<V>, chunks: seq<V>, query: V) {
    exists i | 0 <= i < |chunks| :: m.similarity(chunks[i], query) >= m.floor
  }

  /** `max(...)` over a document's chunks. */
  function Best<V>(m: Measure<V>, chunks: seq<V>, query: V): real
    requires chunks != []
  {
    var first := m.similarity(chunks[0], query);
    if |chunks| == 1 then first
    else
      var rest := Best(m, chunks[1..], query);
      if first >= rest then first else rest
  }

  /** The confirmation side: ready documents with chunks whose best similarity reaches the floor. */
  function Candidates<V>(m: Measure<V>, docs: map<nat, Document<V>>, query: V): set<nat> {
    set d | d in docs && docs[d].ready && docs[d].chunks != [] && Best(m, docs[d].chunks, query) >= m.floor
  }

  lemma {:induction false} BestClears<V>(m: Measure<V>, chunks: seq<V>, query: V)
    requires chunks != []
    ensures Best(m, chunks, query) >= m.floor <==> Clears(m, chunks, query)
  {
    if |chunks| > 1 {
      BestClears(m, chunks[1..], query);
      if Clears(m, chunks, query) {
        var i :| 0 <= i < |chunks| && m.similarity(chunks[i], query) >= m.floor;
        assert i > 0 ==> chunks[i] == chunks[1..][i - 1];
      }
      if Clears(m, chunks[1..], query) {
        var i :| 0 <= i < |chunks[1..]| && m.similarity(chunks[1..][i], query) >= m.floor;
        assert chunks[i + 1] == chunks[1..][i];
      }
    }
  }

  /** The two sides agree on every document. */
  lemma CandidatesAreClearing<V>(m: Measure<V>, docs: map<nat, Document<V>>, query: V, d: nat)
    ensures d in Candidates(m, docs, query) <==> d in docs && docs[d].ready && Clears(m, docs[d].chunks, query)
  {
    if d in docs && docs[d].chunks != [] {
      BestClears(m, docs[d].chunks, query);
    }
  }

  // ---------------------------------------------------------------- rows

  function Count(acl: seq<Grant>, g: Grant): nat {
    if acl == [] then 0 else Count(acl[..|acl| - 1], g) + if acl[|acl| - 1] == g then 1 else 0
  }

  lemma CountNone(g: Grant)
    ensures Count([], g) == 0
  {
  }

  lemma CountSnoc(acl: seq<Grant>, h: Grant, g: Grant)
    ensures Count(acl + [h], g) == Count(acl, g) + if h == g then 1 else 0
  {
    assert (acl + [h])[..|acl|] == acl;
  }

  lemma {:induction false} CountMember(acl: seq<Grant>, g: Grant)
    ensures Count(acl, g) > 0 <==> g in acl
  {
    if acl != [] {
      CountMember(acl[..|acl| - 1], g);
      assert acl == acl[..|acl| - 1] + [acl[|acl| - 1]];
    }
  }

  /** `INSERT ... WHERE NOT EXISTS`. */
  function InsertMissing(acl: seq<Grant>, g: Grant): seq<Grant> {
    if g in acl then acl else acl + [g]
  }

  lemma InsertMissingCounts(acl: seq<Grant>, h: Grant, g: Grant)
    ensures Count(InsertMissing(acl, h), g) == if g == h && g !in acl then 1 else Count(acl, g)
  {
    CountSnoc(acl, h, g);
    CountMember(acl, g);
  }

  /** `DELETE ... WHERE`: keeps the rows that satisfy `keep`. */
  function Keep(keep: Grant -> bool, acl: seq<Grant>): seq<Grant> {
    if acl == [] then []
    else Keep(keep, acl[..|acl| - 1]) + if keep(acl[|acl| - 1]) then [acl[|acl| - 1]] else []
  }

  function NotFromRule(id: nat): Grant -> bool {
    (g: Grant) => g.source != FromRule(id)
  }

  function NotOnDoc(d: nat): Grant -> bool {
    (g: Grant) => g.doc != d
  }

  lemma {:induction false} KeepCounts(keep: Grant -> bool, acl: seq<Grant>, g: Grant)
    ensures Count(Keep(keep, acl), g) == if keep(g) then Count(acl, g) else 0
  {
    hide Count;
    if acl == [] {
      CountNone(g);
    } else {
      var init, last := acl[..|acl| - 1], acl[|acl| - 1];
      KeepCounts(keep, init, g);
      CountSnoc(Keep(keep, init), last, g);
      CountSnoc(init, last, g);
      assert acl == init + [last];
      assert Keep(keep, init) + [] == Keep(keep, init);
    }
  }

  // ---------------------------------------------------------------- the operations, on values

  function RuleGrant<V>(id: nat, rule: Rule<V>, d: nat): Grant {
    Grant(d, Group(rule.group), FromRule(id))
  }

  predicate IsConfirmed<V>(db: Db<V>, id: nat) {
    id in db.rules && db.rules[id].state.Confirmed?
  }

  predicate NoRepeats(xs: seq<nat>) {
    forall i, j | 0 <= i < j < |xs| :: xs[i] != xs[j]
  }

  /** `rows` is a query result: the members of `s`, once each, in some order. */
  ghost predicate Lists(rows: seq<nat>, s: set<nat>) {
    NoRepeats(rows) && forall x :: x in rows <==> x in s
  }

  function GrantDocs<V>(acl: seq<Grant>, id: nat, rule: Rule<V>, rows: seq<nat>): seq<Grant> {
    if rows == [] then acl
    else InsertMissing(GrantDocs(acl, id, rule, rows[..|rows| - 1]), RuleGrant(id, rule, rows[|rows| - 1]))
  }

  /** Auto-admission of document `d`, rule by rule. */
  function Admit<V>(m: Measure<V>, db: Db<V>, d: nat, chunks: seq<V>, ids: seq<nat>): seq<Grant>
    requires forall k | 0 <= k < |ids| :: IsConfirmed(db, ids[k])
  {
    if ids == [] then db.acl
    else
      var before, id := Admit(m, db, d, chunks, ids[..|ids| - 1]), ids[|ids| - 1];
      assert IsConfirmed(db, id);
      var rule := db.rules[id];
      if Clears(m, chunks, rule.state.embedding) then InsertMissing(before, RuleGrant(id, rule, d)) else before
  }

  datatype Command<V> =
    | CreateGroup(group: nat)
    | CreateRule(id: nat, query: string, group: nat)
    | UpdateRule(id: nat, newQuery: Option<string>, newGroup: Option<nat>)
    | ConfirmRule(id: nat, embedding: V, rows: seq<nat>)
    | DeleteRule(id: nat)
    | Ingest(doc: nat, chunks: seq<V>, checkedRules: seq<nat>)
    | RecordFailure(doc: nat)
    | Remove(doc: nat)
    | GrantLocal(doc: nat, principal: Principal)

  /** Fresh ids are fresh, query results are query results, and a check covers confirmed rules, once each. */
  ghost predicate Possible<V(!new)>(m: Measure<V>, db: Db<V>, c: Command<V>) {
    match c
    case CreateRule(id, query, group) => id !in db.rules
    case ConfirmRule(id, embedding, rows) => Lists(rows, Candidates(m, db.docs, embedding))
    case Ingest(d, chunks, ids) => d !in db.docs && NoRepeats(ids) && forall k | 0 <= k < |ids| :: IsConfirmed(db, ids[k])
    case RecordFailure(d) => d !in db.docs
    case _ => true
  }

  /** One request; one that is refused changes nothing. */
  function Apply<V(!new)>(m: Measure<V>, db: Db<V>, c: Command<V>): Db<V>
    requires Possible(m, db, c)
  {
    match c
    case CreateGroup(group) => db.(groups := db.groups + {group})
    case CreateRule(id, query, group) =>
      if group in db.groups then db.(rules := db.rules[id := Rule(query, group, Draft)]) else db
    case UpdateRule(id, query, group) =>
      if id !in db.rules || IsConfirmed(db, id) || (group.Some? && group.value !in db.groups) then db
      else
        var r := db.rules[id];
        db.(rules := db.rules[id := r.(query := if query.Some? then query.value else r.query,
                                       group := if group.Some? then group.value else r.group)])
    case ConfirmRule(id, embedding, rows) =>
      if id !in db.rules || IsConfirmed(db, id) then db
      else
        var rule := db.rules[id];
        db.(rules := db.rules[id := rule.(state := Confirmed(embedding))], acl := GrantDocs(db.acl, id, rule, rows))
    case DeleteRule(id) =>
      if id !in db.rules then db
      else db.(rules := db.rules - {id}, acl := Keep(NotFromRule(id), db.acl),
               missed := set p | p in db.missed && p.1 != id)
    case Ingest(d, chunks, ids) =>
      db.(docs := db.docs[d := Document(true, chunks)], acl := Admit(m, db, d, chunks, ids),
          missed := db.missed + set id | id in db.rules && IsConfirmed(db, id) && id !in ids :: (d, id))
    case RecordFailure(d) => db.(docs := db.docs[d := Document(false, [])])
    case Remove(d) =>
      db.(docs := db.docs - {d}, acl := Keep(NotOnDoc(d), db.acl), missed := set p | p in db.missed && p.0 != d)
    case GrantLocal(d, principal) =>
      if d in db.docs then db.(acl := db.acl + [Grant(d, principal, Local)]) else db
  }

  // ---------------------------------------------------------------- the index agrees with the predicate

  /** Which grants rule `id` should have written, and how often. */
  ghost predicate RuleExact<V>(m: Measure<V>, db: Db<V>, id: nat, g: Grant) {
    Count(db.acl, g) ==
      if && IsConfirmed(db, id) && g.principal == Group(db.rules[id].group)
         && g.doc in db.docs && db.docs[g.doc].ready
         && Clears(m, db.docs[g.doc].chunks, db.rules[id].state.embedding)
         && (g.doc, id) !in db.missed
      then 1 else 0
  }

  ghost predicate Exact<V>(m: Measure<V>, db: Db<V>) {
    && (forall id: nat, g: Grant | g.source == FromRule(id) :: RuleExact(m, db, id, g))
    && (forall p | p in db.missed :: p.0 in db.docs && IsConfirmed(db, p.1))
    && (forall g | g in db.acl :: g.doc in db.docs)
  }

  lemma {:induction false} GrantDocsCounts<V>(acl: seq<Grant>, id: nat, rule: Rule<V>, rows: seq<nat>, g: Grant)
    requires g.source == FromRule(id) ==> g !in acl
    ensures Count(GrantDocs(acl, id, rule, rows), g) ==
      if g.source == FromRule(id) then (if g.principal == Group(rule.group) && g.doc in rows then 1 else 0) else Count(acl, g)
  {
    hide Count;
    CountMember(acl, g);
    if rows != [] {
      var init, d := rows[..|rows| - 1], rows[|rows| - 1];
      GrantDocsCounts(acl, id, rule, init, g);
      var before := GrantDocs(acl, id, rule, init);
      InsertMissingCounts(before, RuleGrant(id, rule, d), g);
      CountMember(before, g);
      assert rows == init + [d];
    }
  }

  lemma {:induction false} AdmitCounts<V>(m: Measure<V>, db: Db<V>, d: nat, chunks: seq<V>, ids: seq<nat>, g: Grant)
    requires forall k | 0 <= k < |ids| :: IsConfirmed(db, ids[k])
    requires forall h | h in db.acl :: h.doc != d
    ensures Count(Admit(m, db, d, chunks, ids), g) ==
      if g.doc == d then
        (if exists k :: 0 <= k < |ids| && g == RuleGrant(ids[k], db.rules[ids[k]], d)
              && Clears(m, chunks, db.rules[ids[k]].state.embedding) then 1 else 0)
      else Count(db.acl, g)
  {
    hide Count, Clears;
    CountMember(db.acl, g);
    if ids != [] {
      var init, id := ids[..|ids| - 1], ids[|ids| - 1];
      assert IsConfirmed(db, id);
      assert forall k | 0 <= k < |init| :: init[k] == ids[k] && IsConfirmed(db, init[k]);
      AdmitCounts(m, db, d, chunks, init, g);
      var before, h := Admit(m, db, d, chunks, init), RuleGrant(id, db.rules[id], d);
      InsertMissingCounts(before, h, g);
      CountMember(before, g);
      if g == h && Clears(m, chunks, db.rules[id].state.embedding) {
        assert g == RuleGrant(ids[|init|], db.rules[ids[|init|]], d);
      } else if k :| 0 <= k < |ids| && g == RuleGrant(ids[k], db.rules[ids[k]], d)
                     && Clears(m, chunks, db.rules[ids[k]].state.embedding) {
        assert k < |init|;
        assert g == RuleGrant(init[k], db.rules[init[k]], d);
      }
    }
  }

  lemma NoEarlyGrants<V>(m: Measure<V>, db: Db<V>, id: nat)
    requires Exact(m, db) && !IsConfirmed(db, id)
    ensures forall g | g in db.acl :: g.source != FromRule(id)
  {
    hide Count;
    forall g | g in db.acl
      ensures g.source != FromRule(id)
    {
      CountMember(db.acl, g);
      assert g.source == FromRule(id) ==> RuleExact(m, db, id, g);
    }
  }

  lemma ConfirmKeeps<V(!new)>(m: Measure<V>, db: Db<V>, c: Command<V>)
    requires Exact(m, db) && Possible(m, db, c) && c.ConfirmRule?
    ensures Exact(m, Apply(m, db, c))
  {
    hide Count, Clears, Candidates;
    var db' := Apply(m, db, c);
    if c.id !in db.rules || IsConfirmed(db, c.id) {
      return;
    }
    NoEarlyGrants(m, db, c.id);
    forall id: nat, g: Grant | g.source == FromRule(id)
      ensures RuleExact(m, db', id, g)
    {
      assert RuleExact(m, db, id, g);
      GrantDocsCounts(db.acl, c.id, db.rules[c.id], c.rows, g);
      CandidatesAreClearing(m, db.docs, c.embedding, g.doc);
    }
    forall g | g in db'.acl
      ensures g.doc in db'.docs
    {
      GrantDocsCounts(db.acl, c.id, db.rules[c.id], c.rows, g);
      CountMember(db'.acl, g);
      CountMember(db.acl, g);
      CandidatesAreClearing(m, db.docs, c.embedding, g.doc);
    }
  }

  lemma IngestKeeps<V(!new)>(m: Measure<V>, db: Db<V>, c: Command<V>)
    requires Exact(m, db) && Possible(m, db, c) && c.Ingest?
    ensures Exact(m, Apply(m, db, c))
  {
    hide Count, Clears, Admit;
    var db' := Apply(m, db, c);
    forall id: nat, g: Grant | g.source == FromRule(id)
      ensures RuleExact(m, db', id, g)
    {
      assert RuleExact(m, db, id, g);
      AdmitCounts(m, db, c.doc, c.chunks, c.checkedRules, g);
      if g.doc == c.doc {
        assert (c.doc, id) !in db.missed;
        if id in c.checkedRules {
          var k :| 0 <= k < |c.checkedRules| && c.checkedRules[k] == id;
          assert IsConfirmed(db, c.checkedRules[k]);
        }
      }
    }
    forall g | g in db'.acl
      ensures g.doc in db'.docs
    {
      AdmitCounts(m, db, c.doc, c.chunks, c.checkedRules, g);
      CountMember(db'.acl, g);
      CountMember(db.acl, g);
    }
  }

  lemma RemovalKeeps<V(!new)>(m: Measure<V>, db: Db<V>, c: Command<V>)
    requires Exact(m, db) && Possible(m, db, c) && (c.Remove? || c.DeleteRule? || c.GrantLocal?)
    ensures Exact(m, Apply(m, db, c))
  {
    hide Count, Clears, Keep;
    var db' := Apply(m, db, c);
    forall g: Grant
      ensures c.GrantLocal? && c.doc in db.docs ==>
        Count(db'.acl, g) == Count(db.acl, g) + if g == Grant(c.doc, c.principal, Local) then 1 else 0
      ensures c.Remove? ==> Count(db'.acl, g) == if g.doc != c.doc then Count(db.acl, g) else 0
      ensures c.DeleteRule? && c.id in db.rules ==> Count(db'.acl, g) == if g.source != FromRule(c.id) then Count(db.acl, g) else 0
    {
      match c {
        case GrantLocal(d, principal) => CountSnoc(db.acl, Grant(d, principal, Local), g);
        case Remove(d) => KeepCounts(NotOnDoc(d), db.acl, g);
        case DeleteRule(id) => KeepCounts(NotFromRule(id), db.acl, g);
      }
    }
    forall id: nat, g: Grant | g.source == FromRule(id)
      ensures RuleExact(m, db', id, g)
    {
      assert RuleExact(m, db, id, g);
    }
    forall g | g in db'.acl
      ensures g.doc in db'.docs
    {
      CountMember(db'.acl, g);
      CountMember(db.acl, g);
    }
  }

  /** Every request, whatever its outcome, keeps the grants exact. */
  lemma RequestsKeepExact<V(!new)>(m: Measure<V>, db: Db<V>, c: Command<V>)
    requires Exact(m, db) && Possible(m, db, c)
    ensures Exact(m, Apply(m, db, c))
  {
    hide Count, Clears;
    match c {
      case ConfirmRule(_, _, _) => ConfirmKeeps(m, db, c);
      case Ingest(_, _, _) => IngestKeeps(m, db, c);
      case Remove(_) => RemovalKeeps(m, db, c);
      case DeleteRule(_) => RemovalKeeps(m, db, c);
      case GrantLocal(_, _) => RemovalKeeps(m, db, c);
      case _ =>
        var db' := Apply(m, db, c);
        forall id: nat, g: Grant | g.source == FromRule(id)
          ensures RuleExact(m, db', id, g)
        {
          assert RuleExact(m, db, id, g);
          CountMember(db.acl, g);
        }
    }
  }

  /** What a request leaves alone: other rules, other documents, and the grants given by hand. */
  ghost predicate OthersStay<V>(before: Db<V>, after: Db<V>, rule: Option<nat>, doc: Option<nat>) {
    && (forall id | rule != Some(id) :: (id in after.rules <==> id in before.rules)
          && (id in after.rules && id in before.rules ==> after.rules[id] == before.rules[id]))
    && (forall d | doc != Some(d) :: (d in after.docs <==> d in before.docs)
          && (d in after.docs && d in before.docs ==> after.docs[d] == before.docs[d]))
    && (forall g: Grant | g.source == Local && doc != Some(g.doc) :: Count(after.acl, g) == Count(before.acl, g))
  }

  function RuleOf<V>(c: Command<V>): Option<nat> {
    match c
    case CreateRule(id, _, _) => Some(id)
    case UpdateRule(id, _, _) => Some(id)
    case ConfirmRule(id, _, _) => Some(id)
    case DeleteRule(id) => Some(id)
    case _ => None
  }

  function DocOf<V>(c: Command<V>): Option<nat> {
    match c
    case Ingest(d, _, _) => Some(d)
    case RecordFailure(d) => Some(d)
    case Remove(d) => Some(d)
    case GrantLocal(d, _) => Some(d)
    case _ => None
  }

  /** Every request touches only the rule and the document it names. */
  lemma RequestsStayLocal<V(!new)>(m: Measure<V>, db: Db<V>, c: Command<V>)
    requires Exact(m, db) && Possible(m, db, c)
    ensures OthersStay(db, Apply(m, db, c), RuleOf(c), DocOf(c))
  {
    hide Count, Clears, Candidates, Keep, GrantDocs, Admit, Exact;
    var after := Apply(m, db, c);
    forall g: Grant | g.source == Local && DocOf(c) != Some(g.doc)
      ensures Count(after.acl, g) == Count(db.acl, g)
    {
      LocalGrantStays(m, db, c, g);
    }
  }

  lemma LocalGrantStays<V(!new)>(m: Measure<V>, db: Db<V>, c: Command<V>, g: Grant)
    requires Exact(m, db) && Possible(m, db, c) && g.source == Local && DocOf(c) != Some(g.doc)
    ensures Count(Apply(m, db, c).acl, g) == Count(db.acl, g)
  {
    hide Count, Clears, Candidates, Keep, GrantDocs, Admit;
    match c {
      case ConfirmRule(id, _, rows) =>
        if id in db.rules {
          GrantDocsCounts(db.acl, id, db.rules[id], rows, g);
        }
      case DeleteRule(id) => KeepCounts(NotFromRule(id), db.acl, g);
      case Ingest(d, chunks, ids) => AdmitCounts(m, db, d, chunks, ids, g);
      case Remove(d) => KeepCounts(NotOnDoc(d), db.acl, g);
      case GrantLocal(d, principal) => CountSnoc(db.acl, Grant(d, principal, Local), g);
      case _ =>
    }
  }

  /** What the requests do to the rule or document they name. */
  lemma RequestsDo<V(!new)>(m: Measure<V>, db: Db<V>, c: Command<V>)
    requires Possible(m, db, c)
    ensures var after := Apply(m, db, c);
      match c
      case CreateGroup(group) => after.groups == db.groups + {group}
      case CreateRule(id, query, group) =>
        if group in db.groups then id in after.rules && after.rules[id] == Rule(query, group, Draft) else after == db
      case UpdateRule(id, query, group) =>
        if id !in db.rules || db.rules[id].state != Draft || (group.Some? && group.value !in db.groups) then after == db
        else
          && id in after.rules && after.rules[id].state == Draft
          && after.rules[id].query == (match query { case Some(q) => q case None => db.rules[id].query })
          && after.rules[id].group == (match group { case Some(g) => g case None => db.rules[id].group })
      case ConfirmRule(id, embedding, rows) =>
        if id !in db.rules || db.rules[id].state != Draft then after == db
        else
          && id in after.rules && after.rules[id].state == Confirmed(embedding)
          && after.rules[id].query == db.rules[id].query && after.rules[id].group == db.rules[id].group
      case DeleteRule(id) => id !in after.rules
      case Ingest(d, chunks, ids) => d in after.docs && after.docs[d].ready && after.docs[d].chunks == chunks
      case RecordFailure(d) => d in after.docs && !after.docs[d].ready
      case Remove(d) => d !in after.docs
      case GrantLocal(d, principal) => d in db.docs ==> Grant(d, principal, Local) in after.acl
  {
    hide Count, Clears, Candidates, Keep, GrantDocs, Admit;
    if c.GrantLocal? && c.doc in db.docs {
      assert (db.acl + [Grant(c.doc, c.principal, Local)])[|db.acl|] == Grant(c.doc, c.principal, Local);
    }
  }

  ghost predicate History<V(!new)>(m: Measure<V>, states: seq<Db<V>>, commands: seq<Command<V>>) {
    && |states| == |commands| + 1
    && states[0] == Db({}, map[], map[], [], {})
    && forall k | 0 <= k < |commands| ::
         Possible(m, states[k], commands[k]) && states[k + 1] == Apply(m, states[k], commands[k])
  }

  /** Over every sequence of requests from empty tables. */
  lemma {:induction false} AlwaysExact<V(!new)>(m: Measure<V>, states: seq<Db<V>>, commands: seq<Command<V>>, k: nat)
    requires History(m, states, commands) && k < |states|
    ensures Exact(m, states[k])
  {
    hide Apply, Possible;
    if k > 0 {
      AlwaysExact(m, states, commands, k - 1);
      RequestsKeepExact(m, states[k - 1], commands[k - 1]);
    }
  }

  // ---------------------------------------------------------------- when no check fails

  /** If the request ingests a document, its check reached every confirmed rule. */
  ghost predicate Unfailing<V(!new)>(db: Db<V>, c: Command<V>) {
    c.Ingest? ==> forall id | IsConfirmed(db, id) :: id in c.checkedRules
  }

  ghost predicate UnfailingHistory<V(!new)>(m: Measure<V>, states: seq<Db<V>>, commands: seq<Command<V>>) {
    && History(m, states, commands)
    && forall k | 0 <= k < |commands| :: Unfailing(states[k], commands[k])
  }

  lemma {:induction false} NothingMissed<V(!new)>(m: Measure<V>, states: seq<Db<V>>, commands: seq<Command<V>>, k: nat)
    requires UnfailingHistory(m, states, commands) && k < |states|
    ensures states[k].missed == {}
  {
    if k > 0 {
      hide Possible;
      NothingMissed(m, states, commands, k - 1);
      assert Unfailing(states[k - 1], commands[k - 1]);
      MissedNext(m, states[k - 1], commands[k - 1]);
      hide Apply;
    }
  }

  lemma MissedNext<V(!new)>(m: Measure<V>, db: Db<V>, c: Command<V>)
    requires Possible(m, db, c) && Unfailing(db, c) && db.missed == {}
    ensures Apply(m, db, c).missed == {}
  {
    hide Admit, Candidates, Keep, GrantDocs;
  }

  /** What a confirmed rule grants: every ready document of which some chunk clears the floor. */
  ghost predicate Grants<V>(m: Measure<V>, db: Db<V>, id: nat, d: nat) {
    && IsConfirmed(db, id) && d in db.docs && db.docs[d].ready
    && Clears(m, db.docs[d].chunks, db.rules[id].state.embedding)
  }

  /**
   While no check has failed: a grant tagged with a rule exists exactly once if the rule is
   confirmed, names the rule's group, and some chunk of its ready document clears the floor; and
   otherwise it does not exist.
   */
  lemma GrantsAreExact<V(!new)>(m: Measure<V>, states: seq<Db<V>>, commands: seq<Command<V>>, k: nat, id: nat, g: Grant)
    requires UnfailingHistory(m, states, commands) && k < |states| && g.source == FromRule(id)
    ensures Count(states[k].acl, g) ==
      if Grants(m, states[k], id, g.doc) && g.principal == Group(states[k].rules[id].group) then 1 else 0
  {
    hide Count, Clears, History;
    AlwaysExact(m, states, commands, k);
    NothingMissed(m, states, commands, k);
    assert RuleExact(m, states[k], id, g);
  }

  /**
   And then a failed check is the only way to miss one: after it, a rule the document clears has its
   grant if and only if it was reached.
   */
  lemma GrantedIffReached<V(!new)>(m: Measure<V>, db: Db<V>, d: nat, chunks: seq<V>, ids: seq<nat>, id: nat)
    requires Exact(m, db) && Possible(m, db, Ingest(d, chunks, ids)) && IsConfirmed(db, id)
    requires Clears(m, chunks, db.rules[id].state.embedding)
    ensures RuleGrant(id, db.rules[id], d) in Apply(m, db, Ingest(d, chunks, ids)).acl <==> id in ids
  {
    hide Count, Clears, Admit;
    var g := RuleGrant(id, db.rules[id], d);
    var db' := Apply(m, db, Ingest(d, chunks, ids));
    AdmitCounts(m, db, d, chunks, ids, g);
    CountMember(db'.acl, g);
    if id in ids {
      var k :| 0 <= k < |ids| && ids[k] == id;
      assert g == RuleGrant(ids[k], db.rules[ids[k]], d);
    }
  }

  /** One failed check: the rule is confirmed, the document is ready and clears it, and there is no grant. */
  lemma FailedCheckWithholds<V(!new)>(m: Measure<V>, query: V, chunk: V)
    returns (states: seq<Db<V>>, commands: seq<Command<V>>)
    requires m.similarity(chunk, query) >= m.floor
    ensures History(m, states, commands)
    ensures var last := states[|states| - 1]; Grants(m, last, 0, 0) && last.acl == []
  {
    var s0 := Db({}, map[], map[], [], {});
    var s1 := s0.(groups := {0});
    var s2 := s1.(rules := map[0 := Rule("", 0, Draft)]);
    var s3 := s2.(rules := map[0 := Rule("", 0, Confirmed(query))]);
    var s4 := s3.(docs := map[0 := Document(true, [chunk])], missed := {(0, 0)});
    commands := [CreateGroup(0), CreateRule(0, "", 0), ConfirmRule(0, query, []), Ingest(0, [chunk], [])];
    states := [s0, s1, s2, s3, s4];
    assert Clears(m, [chunk], query) by {
      assert [chunk][0] == chunk;
    }
    assert Candidates(m, s2.docs, query) == {};
    hide Candidates, Clears, Best, Keep;
    assert Apply(m, s0, commands[0]) == s1;
    assert Apply(m, s1, commands[1]) == s2;
    assert Apply(m, s2, commands[2]) == s3;
    assert Apply(m, s3, commands[3]) == s4;
  }

  // ---------------------------------------------------------------- visibility

  /** No user at all stands for disabled authentication or an unscoped key. */
  datatype Caller = Unscoped | Admin | Person(id: nat, memberships: set<nat>)

  predicate Reaches(g: Grant, p: Caller)
    requires p.Person?
  {
    match g.principal
    case Public => true
    case User(id) => id == p.id
    case Group(id) => id in p.memberships
  }

  /** `visibility_clause`, as a predicate on one document. */
  predicate Visible<V>(db: Db<V>, caller: Caller, d: nat) {
    d in db.docs && (!caller.Person? || exists i | 0 <= i < |db.acl| :: db.acl[i].doc == d && Reaches(db.acl[i], caller))
  }

  /** The row grants its document to the public, to the person, or to a group the person is in. */
  predicate GrantsTo(g: Grant, id: nat, memberships: set<nat>) {
    g.principal == Public || g.principal == User(id) || (g.principal.Group? && g.principal.id in memberships)
  }

  /** Who sees a document, told from the rows: without a user, or as an administrator, everyone; a person, if some row says so. */
  lemma VisibleIff<V>(db: Db<V>, d: nat, id: nat, memberships: set<nat>)
    ensures Visible(db, Unscoped, d) <==> d in db.docs
    ensures Visible(db, Admin, d) <==> d in db.docs
    ensures Visible(db, Person(id, memberships), d) <==>
      d in db.docs && exists g :: g in db.acl && g.doc == d && GrantsTo(g, id, memberships)
  {
    if g :| g in db.acl && g.doc == d && GrantsTo(g, id, memberships) {
      var i :| 0 <= i < |db.acl| && db.acl[i] == g;
    }
  }

  /** A confirmed rule of one of the caller's groups matches the document. */
  ghost predicate RuleReaches<V>(m: Measure<V>, db: Db<V>, memberships: set<nat>, d: nat, id: nat) {
    && IsConfirmed(db, id) && db.rules[id].group in memberships && d in db.docs && db.docs[d].ready
    && Clears(m, db.docs[d].chunks, db.rules[id].state.embedding) && (d, id) !in db.missed
  }

  /** What a person sees is what was granted by hand, and what a confirmed rule of a group matches. */
  lemma VisibilityFollowsRules<V>(m: Measure<V>, db: Db<V>, p: Caller, d: nat)
    requires Exact(m, db) && p.Person? && d in db.docs
    ensures Visible(db, p, d) <==>
      || (exists g :: g in db.acl && g.doc == d && g.source == Local && Reaches(g, p))
      || (exists id: nat :: RuleReaches(m, db, p.memberships, d, id))
  {
    hide Count, Clears;
    if Visible(db, p, d) {
      var i :| 0 <= i < |db.acl| && db.acl[i].doc == d && Reaches(db.acl[i], p);
      var g := db.acl[i];
      CountMember(db.acl, g);
      if g.source.FromRule? {
        assert RuleExact(m, db, g.source.rule, g);
        assert RuleReaches(m, db, p.memberships, d, g.source.rule);
      }
    }
    if g :| g in db.acl && g.doc == d && g.source == Local && Reaches(g, p) {
      var i :| 0 <= i < |db.acl| && db.acl[i] == g;
    }
    if id: nat :| RuleReaches(m, db, p.memberships, d, id) {
      var g := RuleGrant(id, db.rules[id], d);
      assert RuleExact(m, db, id, g);
      CountMember(db.acl, g);
      var i :| 0 <= i < |db.acl| && db.acl[i] == g;
    }
  }

  /** While no check has failed, group-derived visibility is the predicate itself. */
  lemma VisibilityIsExact<V(!new)>(m: Measure<V>, states: seq<Db<V>>, commands: seq<Command<V>>, k: nat, p: Caller, d: nat)
    requires UnfailingHistory(m, states, commands) && k < |states| && p.Person? && d in states[k].docs
    ensures var db := states[k];
      Visible(db, p, d) <==>
        || (exists g :: g in db.acl && g.doc == d && g.source == Local && Reaches(g, p))
        || (exists id: nat :: Grants(m, db, id, d) && db.rules[id].group in p.memberships)
  {
    hide Count, Clears, History, Visible, Reaches, Exact;
    AlwaysExact(m, states, commands, k);
    NothingMissed(m, states, commands, k);
    VisibilityFollowsRules(m, states[k], p, d);
    assert forall id: nat :: RuleReaches(m, states[k], p.memberships, d, id) <==>
      Grants(m, states[k], id, d) && states[k].rules[id].group in p.memberships;
  }

  // ---------------------------------------------------------------- the requests themselves

  datatype Reply = Done | NotFound | Refused

  class Store<V(!new)> {
    const measure: Measure<V>
    var groups: set<nat>
    var rules: map<nat, Rule<V>>
    var docs: map<nat, Document<V>>
    var acl: seq<Grant>
    ghost var missed: set<(nat, nat)>

    ghost function Contents(): Db<V>
      reads this
    {
      Db(groups, rules, docs, acl, missed)
    }

    constructor (measure: Measure<V>)
      ensures this.measure == measure && Contents() == Db({}, map[], map[], [], {})
    {
      this.measure := measure;
      groups, rules, docs, acl, missed := {}, map[], map[], [], {};
    }

    /** The documents a query matches, in some order. */
    method RuleCandidates(query: V) returns (rows: seq<nat>)
      ensures Lists(rows, Candidates(measure, docs, query))
    {
      rows := [];
      var pending := Candidates(measure, docs, query);
      ghost var all := pending;
      while pending != {}
        invariant NoRepeats(rows) && pending <= all && forall x :: x in rows <==> x in all && x !in pending
        decreases pending
      {
        var d :| d in pending;
        rows := rows + [d];
        pending := pending - {d};
      }
    }

    method CreateDraft(id: nat, query: string, group: nat) returns (reply: Reply)
      requires id !in rules
      modifies this
      ensures Contents() == Apply(measure, old(Contents()), CreateRule(id, query, group))
      ensures reply == if group in old(groups) then Done else NotFound
    {
      if group !in groups {
        return NotFound;
      }
      rules := rules[id := Rule(query, group, Draft)];
      reply := Done;
    }

    method Update(id: nat, query: Option<string>, group: Option<nat>) returns (reply: Reply)
      modifies this
      ensures Contents() == Apply(measure, old(Contents()), UpdateRule(id, query, group))
      ensures reply == Refused <==> IsConfirmed(old(Contents()), id)
    {
      if id !in rules {
        return NotFound;
      }
      var rule := rules[id];
      if rule.state.Confirmed? {
        return Refused;
      }
      if group.Some? && group.value !in groups {
        return NotFound;
      }
      if query.Some? {
        rule := rule.(query := query.value);
      }
      if group.Some? {
        rule := rule.(group := group.value);
      }
      rules := rules[id := rule];
      reply := Done;
    }

    /** `embedding` is what embedding the rule's query gives. */
    method ConfirmDraft(id: nat, embedding: V) returns (reply: Reply, ghost rows: seq<nat>)
      modifies this
      ensures Lists(rows, Candidates(measure, old(docs), embedding))
      ensures Contents() == Apply(measure, old(Contents()), ConfirmRule(id, embedding, rows))
      ensures reply == if id !in old(rules) then NotFound else if IsConfirmed(old(Contents()), id) then Refused else Done
    {
      hide Candidates;
      var found := RuleCandidates(embedding);
      rows := found;
      if id !in rules {
        return NotFound, rows;
      }
      if rules[id].state.Confirmed? {
        return Refused, rows;
      }
      var rule := rules[id];
      rules := rules[id := rule.(state := Confirmed(embedding))];
      acl := GrantDocs(acl, id, rule, found);
      reply := Done;
    }

    method Delete(id: nat) returns (reply: Reply)
      modifies this
      ensures Contents() == Apply(measure, old(Contents()), DeleteRule(id))
      ensures reply == if id in old(rules) then Done else NotFound
    {
      if id !in rules {
        return NotFound;
      }
      acl := Keep(NotFromRule(id), acl);
      rules := rules - {id};
      missed := set p | p in missed && p.1 != id;
      reply := Done;
    }

    /**
     Checks a document that is being stored against the confirmed rules; a failure ends the check,
     not the ingest. A check that does not fail reaches every confirmed rule.
     */
    method ApplyConfirmedRules(d: nat, chunks: seq<V>) returns (ghost ids: seq<nat>, ghost failed: bool)
      modifies this`acl
      ensures NoRepeats(ids) && forall k | 0 <= k < |ids| :: IsConfirmed(old(Contents()), ids[k])
      ensures !failed ==> forall id | IsConfirmed(old(Contents()), id) :: id in ids
      ensures acl == Admit(measure, old(Contents()), d, chunks, ids)
    {
      hide Clears;
      ghost var before := Contents();
      ids, failed := [], false;
      var pending := set id | id in rules && rules[id].state.Confirmed?;
      while pending != {}
        invariant forall id :: IsConfirmed(before, id) <==> id in pending || id in ids
        invariant NoRepeats(ids) && forall k | 0 <= k < |ids| :: IsConfirmed(before, ids[k]) && ids[k] !in pending
        invariant acl == Admit(measure, before, d, chunks, ids)
        decreases pending
      {
        var fails: bool := *;
        if fails {
          failed := true;
          return;
        }
        var id :| id in pending;
        if Clears(measure, chunks, rules[id].state.embedding) {
          acl := InsertMissing(acl, RuleGrant(id, rules[id], d));
        }
        assert (ids + [id])[..|ids|] == ids;
        ids := ids + [id];
        pending := pending - {id};
      }
    }

    /** The last part of a successful ingest: the document becomes ready and the rules are checked. */
    method IngestReady(d: nat, chunks: seq<V>) returns (ghost ids: seq<nat>, ghost failed: bool)
      requires d !in docs
      modifies this
      ensures !failed ==> Unfailing(old(Contents()), Ingest(d, chunks, ids))
      ensures Possible(measure, old(Contents()), Ingest(d, chunks, ids))
      ensures Contents() == Apply(measure, old(Contents()), Ingest(d, chunks, ids))
    {
      hide Admit;
      ids, failed := ApplyConfirmedRules(d, chunks);
      docs := docs[d := Document(true, chunks)];
      missed := missed + set id | id in rules && rules[id].state.Confirmed? && id !in ids :: (d, id);
    }
  }
}
