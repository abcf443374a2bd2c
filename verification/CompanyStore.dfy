/**
  The companies collection together with the cached public list of the current event,
  mongodb/company.go. `Db` is the value of both; the class performs the calls.
*/
module CompanyStore {
  import opened Wrappers
  import opened ParticipationStatus
  import opened Companies
  import opened Search

  /** What stays fixed: the current event, the packages, and which names match a pattern of the
      name filter. */
  datatype Env = Env(event: int, packages: Packages, matches: (string, string) -> bool)

  /** GetCompaniesPublicOptions */
  datatype Query = Query(eventId: Option<int>, partner: Option<bool>, name: Option<string>)

  const UNFILTERED := Query(None, None, None)

  datatype Db = Db(companies: seq<Company>, cache: Option<seq<CompanyPublic>>)

  // ---- the public list ----

  /** The unfiltered query, recomputed: the companies with a participation on the event whose
      conversion succeeds, in natural order. */
  function FreshPublic(cs: seq<Company>, event: int, packages: Packages): seq<CompanyPublic> {
    if cs == [] then []
    else
      var c := cs[|cs| - 1];
      var p := ToPublic(c, Some(event), packages);
      FreshPublic(cs[..|cs| - 1], event, packages)
      + if HasEvent(c.participations, event) && p.Some? then [p.value] else []
  }

  /** Whether the partner and name filters let a company pass; the partner filter, like the event
      filter, asks for any participation, not for the same one. */
  predicate Passes(c: Company, q: Query, env: Env) {
    && (q.partner.Some? ==> exists p :: p in c.participations && p.partner == q.partner.value)
    && (q.name.Some? ==> env.matches(q.name.value, c.name))
  }

  function Selection(cs: seq<Company>, q: Query, env: Env): seq<Company> {
    if cs == [] then []
    else Selection(cs[..|cs| - 1], q, env) + if Passes(cs[|cs| - 1], q, env) then [cs[|cs| - 1]] else []
  }

  lemma {:induction false} SelectionWithoutFilters(cs: seq<Company>, q: Query, env: Env)
    requires q.partner.None? && q.name.None?
    ensures Selection(cs, q, env) == cs
  {
    if cs == [] {
      assert Selection(cs, q, env) == [];
    } else {
      SelectionWithoutFilters(cs[..|cs| - 1], q, env);
      assert cs == cs[..|cs| - 1] + [cs[|cs| - 1]];
    }
  }

  /** What a query has to answer. */
  function PublicFor(cs: seq<Company>, q: Query, env: Env): seq<CompanyPublic> {
    FreshPublic(Selection(cs, q, env), OrElse(q.eventId, env.event), env.packages)
  }

  /** Some participation is on the event, some has the partner flag, and the name matches. */
  ghost predicate IsSelected(c: Company, q: Query, env: Env, event: int) {
    var ps := c.participations;
    && (exists k :: 0 <= k < |ps| && ps[k].event == event)
    && (q.partner.None? || exists k :: 0 <= k < |ps| && ps[k].partner == q.partner.value)
    && (q.name.None? || env.matches(q.name.value, c.name))
  }

  /** The query goes through the companies in order and shows those that it selects and that have a
      public view for the event. */
  lemma QueryShows(cs: seq<Company>, c: Company, q: Query, env: Env)
    ensures PublicFor([], q, env) == []
    ensures var event := if q.eventId.None? then env.event else q.eventId.value;
            var p := ToPublic(c, Some(event), env.packages);
            PublicFor(cs + [c], q, env) == PublicFor(cs, q, env) + if IsSelected(c, q, env, event) && p.Some? then [p.value] else []
  {
    var all, event := cs + [c], OrElse(q.eventId, env.event);
    assert all[..|cs|] == cs && all[..|all|] == all;
    SelectionOneMore(all, |cs|, q, env, event);
  }

  lemma UnfilteredIsFresh(cs: seq<Company>, env: Env)
    ensures PublicFor(cs, UNFILTERED, env) == FreshPublic(cs, env.event, env.packages)
  {
    SelectionWithoutFilters(cs, UNFILTERED, env);
  }

  /** What the public list shows of a company. */
  ghost predicate SameCompanyView(c: Company, d: Company) {
    && c.id == d.id && c.name == d.name && c.publicImage == d.publicImage && c.site == d.site
    && |c.participations| == |d.participations|
    && forall i :: 0 <= i < |c.participations| ==> SameView(c.participations[i], d.participations[i])
  }

  lemma {:induction false} SameEvents(ps: seq<Participation>, qs: seq<Participation>, event: int)
    requires |ps| == |qs| && forall i :: 0 <= i < |ps| ==> ps[i].event == qs[i].event
    ensures FindEvent(ps, event) == FindEvent(qs, event)
  {
    if ps == [] {
    } else {
      SameEvents(ps[1..], qs[1..], event);
    }
  }

  lemma {:induction false} FreshReadsOnlyTheView(cs: seq<Company>, ds: seq<Company>, event: int, packages: Packages)
    requires |cs| == |ds| && forall i :: 0 <= i < |cs| ==> SameCompanyView(cs[i], ds[i])
    ensures FreshPublic(cs, event, packages) == FreshPublic(ds, event, packages)
    decreases |cs|
  {
    if cs == [] {
    } else {
      var n := |cs| - 1;
      FreshReadsOnlyTheView(cs[..n], ds[..n], event, packages);
      SameEvents(cs[n].participations, ds[n].participations, event);
      PublicReadsOnlyTheView(cs[n].participations, ds[n].participations, None, None, Some(event), packages);
    }
  }

  // ---- the calls ----

  /** Updates of the fields of a company outside its participations. */
  datatype CompanyEdit =
    | SetInfo(name: Option<string>, description: Option<string>, site: Option<string>, linkedIn: Option<string>, billing: Option<BillingInfo>)
    | SetInternalImage(url: string)
    | SetPublicImage(url: string)
    | AddEmployer(rep: Id)
    | RemoveEmployer(rep: Id)
    | SetEmployers(reps: seq<Id>)

  function OrElse<T>(x: Option<T>, y: T): T {
    if x.Some? then x.value else y
  }

  function ApplyCompanyEdit(c: Company, e: CompanyEdit): (d: Company)
    ensures d.id == c.id && d.participations == c.participations
  {
    match e
    case SetInfo(name, description, site, linkedIn, billing) =>
      c.(name := OrElse(name, c.name), description := OrElse(description, c.description), site := OrElse(site, c.site),
         linkedIn := OrElse(linkedIn, c.linkedIn), billingInfo := OrElse(billing, c.billingInfo))
    case SetInternalImage(url) => c.(internalImage := url)
    case SetPublicImage(url) => c.(publicImage := url)
    case AddEmployer(rep) => c.(employers := AddToSet(c.employers, rep))
    case RemoveEmployer(rep) => c.(employers := Pull(c.employers, rep))
    case SetEmployers(reps) => c.(employers := reps)
  }

  /** Each update sets its own fields and no others; an absent text leaves its field alone. */
  ghost predicate CompanyEdited(c: Company, e: CompanyEdit, d: Company) {
    && d.id == c.id && d.participations == c.participations && d.contact == c.contact
    && d.name == (if e.SetInfo? && e.name.Some? then e.name.value else c.name)
    && d.description == (if e.SetInfo? && e.description.Some? then e.description.value else c.description)
    && d.site == (if e.SetInfo? && e.site.Some? then e.site.value else c.site)
    && d.linkedIn == (if e.SetInfo? && e.linkedIn.Some? then e.linkedIn.value else c.linkedIn)
    && d.billingInfo == (if e.SetInfo? && e.billing.Some? then e.billing.value else c.billingInfo)
    && d.internalImage == (if e.SetInternalImage? then e.url else c.internalImage)
    && d.publicImage == (if e.SetPublicImage? then e.url else c.publicImage)
    && (e.RemoveEmployer? ==> d.employers == Pull(c.employers, e.rep))
    && (e.SetEmployers? ==> d.employers == e.reps)
    && (!e.RemoveEmployer? && !e.SetEmployers? ==>
          d.employers == c.employers + if e.AddEmployer? && e.rep !in c.employers then [e.rep] else [])
  }

  /** Whether the call that makes the edit resets the cached list when it succeeds. */
  predicate Resets(e: Edit) {
    match e
    case SetStatus(_) => true
    case SetData(_, _, _, _) => true
    case SetPackage(_) => true
    case SetBilling(_) => true
    case _ => false
  }

  predicate CompanyResets(e: CompanyEdit) {
    match e
    case SetInfo(_, _, _, _, _) => true
    case SetInternalImage(_) => true
    case SetPublicImage(_) => true
    case _ => false
  }

  datatype Call =
    | Create(id: Id, name: string, description: string, site: string, linkedIn: string, contact: Id, how: Insert)
    | AddParticipation(id: Id, member: Id, partner: bool)
    | Step(id: Id, step: int)
    | EditParticipation(id: Id, event: int, edit: Edit)
    | EditCompany(id: Id, companyEdit: CompanyEdit)
    | Announce
    | GetPublic(query: Query)
    | CleanupTick

  /** The position of the company with the given id, or the length. */
  function FindCompany(cs: seq<Company>, id: Id): (i: nat)
    ensures i <= |cs| && (i < |cs| ==> cs[i].id == id)
    ensures forall j :: 0 <= j < i ==> cs[j].id != id
  {
    IndexOf(cs, (c: Company) => c.id == id)
  }

  function NewCompany(id: Id, name: string, description: string, site: string, linkedIn: string, contact: Id): Company {
    Company(id, name, description, "", "", site, linkedIn, [], BillingInfo("", "", ""), [], contact)
  }

  function EditAt(cs: seq<Company>, id: Id, event: int, e: Edit): Option<seq<Company>> {
    var i := FindCompany(cs, id);
    if i < |cs| && HasEvent(cs[i].participations, event)
    then Some(cs[i := cs[i].(participations := EditFirst(cs[i].participations, event, e))])
    else None
  }

  /** An update changes one participation of one company, the first on the event of the first with the
      id, and fails when there is none. */
  lemma EditAtChangesOne(cs: seq<Company>, id: Id, event: int, e: Edit)
    ensures var r := EditAt(cs, id, event, e);
            && (r.Some? <==> exists i: nat, k: nat :: HasParticipation(cs, id, event, i, k))
            && (r.Some? ==> exists i: nat, k: nat :: HasParticipation(cs, id, event, i, k) && ChangesOne(cs, r.value, i, k)
                                           && Edited(cs[i].participations[k], e, r.value[i].participations[k]))
  {
    var i := FindCompany(cs, id);
    if i < |cs| {
      var k := FindEvent(cs[i].participations, event);
      if k < |cs[i].participations| {
        EditSetsItsFields(cs[i].participations[k], e);
        assert HasParticipation(cs, id, event, i, k);
        assert ChangesOne(cs, EditAt(cs, id, event, e).value, i, k);
      }
    }
  }

  /** The first company with the id and its first participation on the event. */
  ghost predicate HasParticipation(cs: seq<Company>, id: Id, event: int, i: nat, k: nat) {
    && i < |cs| && cs[i].id == id && (forall j :: 0 <= j < i ==> cs[j].id != id)
    && k < |cs[i].participations| && cs[i].participations[k].event == event
    && forall j :: 0 <= j < k ==> cs[i].participations[j].event != event
  }

  /** At most the k-th participation of the i-th company differs. */
  ghost predicate ChangesOne(cs: seq<Company>, ds: seq<Company>, i: nat, k: nat)
    requires i < |cs|
  {
    && |ds| == |cs| && (forall j :: 0 <= j < |cs| && j != i ==> ds[j] == cs[j])
    && ds[i] == cs[i].(participations := ds[i].participations)
    && |ds[i].participations| == |cs[i].participations| && k < |cs[i].participations|
    && forall j :: 0 <= j < |cs[i].participations| && j != k ==> ds[i].participations[j] == cs[i].participations[j]
  }

  /** The next status of the participation on the event, when there is one and the step is valid. */
  function StepTarget(cs: seq<Company>, id: Id, event: int, step: int): Option<Status> {
    var i := FindCompany(cs, id);
    if i == |cs| then None else
    var j := FindEvent(cs[i].participations, event);
    if j == |cs[i].participations| then None else
    var r := NextStatus(cs[i].participations[j].status, step);
    if r.Ok? then Some(r.value) else None
  }

  function StepAt(cs: seq<Company>, id: Id, event: int, step: int): Option<seq<Company>> {
    var t := StepTarget(cs, id, event, step);
    if t.Some? then EditAt(cs, id, event, SetStatus(t.value)) else None
  }

  /** A step moves the status of that participation along the relation, or fails when there is none or
      the step is not valid. */
  lemma StepMovesTheStatus(cs: seq<Company>, id: Id, event: int, step: int)
    ensures var r := StepAt(cs, id, event, step);
            && (r.Some? <==> exists i: nat, k: nat :: HasParticipation(cs, id, event, i, k)
                                                      && NextStatus(cs[i].participations[k].status, step).Ok?)
            && (r.Some? ==> exists i: nat, k: nat ::
                  && HasParticipation(cs, id, event, i, k) && ChangesOne(cs, r.value, i, k)
                  && var p := cs[i].participations[k];
                     NextStatus(p.status, step).Ok?
                     && r.value[i].participations[k] == p.(status := NextStatus(p.status, step).value))
  {
    var i := FindCompany(cs, id);
    if i < |cs| {
      var k := FindEvent(cs[i].participations, event);
      if k < |cs[i].participations| {
        assert HasParticipation(cs, id, event, i, k);
        var r := StepAt(cs, id, event, step);
        assert r.Some? ==> ChangesOne(cs, r.value, i, k);
      }
    }
  }

  predicate IsAccepted(p: Participation, event: int) {
    p.event == event && p.status == Accepted
  }

  predicate HasAccepted(ps: seq<Participation>, event: int) {
    exists p :: p in ps && IsAccepted(p, event)
  }

  /** The update of every array element that the filter of AnnounceAcceptedCompanies selects. */
  function AnnounceIn(ps: seq<Participation>, event: int): (out: seq<Participation>)
    ensures |out| == |ps|
    ensures forall i :: 0 <= i < |ps| ==>
                          out[i] == if IsAccepted(ps[i], event) then ps[i].(status := Announced) else ps[i]
  {
    seq(|ps|, i requires 0 <= i < |ps| => if IsAccepted(ps[i], event) then ps[i].(status := Announced) else ps[i])
  }

  function AnnounceAll(cs: seq<Company>, event: int): (out: seq<Company>)
    ensures |out| == |cs|
    ensures forall i :: 0 <= i < |cs| ==> out[i] == cs[i].(participations := AnnounceIn(cs[i].participations, event))
  {
    seq(|cs|, i requires 0 <= i < |cs| => cs[i].(participations := AnnounceIn(cs[i].participations, event)))
  }

  /** The ids of the companies with an accepted participation on the event. */
  function AcceptedIds(cs: seq<Company>, event: int): (ids: seq<Id>)
  {
    if cs == [] then []
    else (if HasAccepted(cs[0].participations, event) then [cs[0].id] else [])
         + AcceptedIds(cs[1..], event)
  }

  /** The ids come in the order of the companies, one for each with a participation on the event that is
      accepted. */
  lemma AcceptedIdsAre(c: Company, cs: seq<Company>, event: int)
    ensures AcceptedIds([], event) == []
    ensures var ps := c.participations;
            AcceptedIds([c] + cs, event) ==
            (if exists k :: 0 <= k < |ps| && ps[k].event == event && ps[k].status == Accepted then [c.id] else []) + AcceptedIds(cs, event)
  {
    var all, ps := [c] + cs, c.participations;
    assert all[1..] == cs;
    if k :| 0 <= k < |ps| && ps[k].event == event && ps[k].status == Accepted {
      assert ps[k] in ps && IsAccepted(ps[k], event);
    }
  }

  function CallStep(db: Db, call: Call, env: Env): Db {
    match call
    case Create(id, name, description, site, linkedIn, contact, how) =>
      if how.InsertFails? then db
      else Db(db.companies + [NewCompany(id, name, description, site, linkedIn, contact)], if how.Inserted? then None else db.cache)
    case AddParticipation(id, member, partner) =>
      var i := FindCompany(db.companies, id);
      if i < |db.companies| && !HasEvent(db.companies[i].participations, env.event) then
        var c := db.companies[i];
        Db(db.companies[i := c.(participations := c.participations + [NewParticipation(env.event, member, partner)])], None)
      else db
    case Step(id, step) =>
      var r := StepAt(db.companies, id, env.event, step);
      if r.Some? then Db(r.value, None) else db
    case EditParticipation(id, event, edit) =>
      var r := EditAt(db.companies, id, event, edit);
      if r.Some? then Db(r.value, if Resets(edit) then None else db.cache) else db
    case EditCompany(id, edit) =>
      var i := FindCompany(db.companies, id);
      if i < |db.companies|
      then Db(db.companies[i := ApplyCompanyEdit(db.companies[i], edit)], if CompanyResets(edit) then None else db.cache)
      else db
    case Announce => Db(AnnounceAll(db.companies, env.event), None)
    case GetPublic(query) =>
      if query == UNFILTERED && db.cache.None?
      then db.(cache := Some(FreshPublic(db.companies, env.event, env.packages)))
      else db
    case CleanupTick => db.(cache := None)
  }

  /** Inserts yield fresh ids. */
  ghost predicate Enabled(db: Db, call: Call) {
    call.Create? ==> forall i :: 0 <= i < |db.companies| ==> db.companies[i].id != call.id
  }

  // ---- invariants over every run of calls ----

  ghost predicate DistinctIds(cs: seq<Company>) {
    forall i, j :: 0 <= i < j < |cs| ==> cs[i].id != cs[j].id
  }

  ghost predicate GoodCompanies(cs: seq<Company>) {
    DistinctIds(cs) && forall i :: 0 <= i < |cs| ==> UniqueEvents(cs[i].participations)
  }

  ghost predicate Inv(db: Db, env: Env) {
    && GoodCompanies(db.companies)
    && (db.cache.Some? ==> db.cache.value == FreshPublic(db.companies, env.event, env.packages))
  }

  /** The calls that leave the cache alone leave the public list alone. */
  lemma UnresetEditsAreInvisible(cs: seq<Company>, id: Id, event: int, e: Edit, env: Env)
    requires !Resets(e) && EditAt(cs, id, event, e).Some?
    ensures FreshPublic(EditAt(cs, id, event, e).value, env.event, env.packages) == FreshPublic(cs, env.event, env.packages)
  {
    var i, ds := FindCompany(cs, id), EditAt(cs, id, event, e).value;
    FreshReadsOnlyTheView(cs, ds, env.event, env.packages);
  }

  lemma UnresetCompanyEditsAreInvisible(cs: seq<Company>, i: nat, e: CompanyEdit, env: Env)
    requires !CompanyResets(e) && i < |cs|
    ensures FreshPublic(cs[i := ApplyCompanyEdit(cs[i], e)], env.event, env.packages) == FreshPublic(cs, env.event, env.packages)
  {
    FreshReadsOnlyTheView(cs, cs[i := ApplyCompanyEdit(cs[i], e)], env.event, env.packages);
  }

  lemma EditKeepsGood(cs: seq<Company>, id: Id, event: int, e: Edit)
    requires GoodCompanies(cs) && EditAt(cs, id, event, e).Some?
    ensures GoodCompanies(EditAt(cs, id, event, e).value)
  {
    var i := FindCompany(cs, id);
  }

  lemma AddParticipationKeepsGood(cs: seq<Company>, i: nat, p: Participation)
    requires GoodCompanies(cs) && i < |cs| && !HasEvent(cs[i].participations, p.event)
    ensures GoodCompanies(cs[i := cs[i].(participations := cs[i].participations + [p])])
  {
  }

  lemma AnnounceKeepsGood(cs: seq<Company>, event: int)
    requires GoodCompanies(cs)
    ensures GoodCompanies(AnnounceAll(cs, event))
  {
  }

  lemma EditParticipationKeepsInv(db: Db, id: Id, event: int, edit: Edit, env: Env)
    requires Inv(db, env)
    ensures Inv(CallStep(db, EditParticipation(id, event, edit), env), env)
  {
    if EditAt(db.companies, id, event, edit).Some? {
      EditKeepsGood(db.companies, id, event, edit);
      if !Resets(edit) {
        UnresetEditsAreInvisible(db.companies, id, event, edit, env);
      }
    }
  }

  lemma EditCompanyKeepsInv(db: Db, id: Id, edit: CompanyEdit, env: Env)
    requires Inv(db, env)
    ensures Inv(CallStep(db, EditCompany(id, edit), env), env)
  {
    var i := FindCompany(db.companies, id);
    if i < |db.companies| {
      if !CompanyResets(edit) {
        UnresetCompanyEditsAreInvisible(db.companies, i, edit, env);
      }
    }
  }

  lemma CallKeepsInv(db: Db, call: Call, env: Env)
    requires Inv(db, env) && Enabled(db, call)
    ensures Inv(CallStep(db, call, env), env)
  {
    match call
    case Create(id, name, description, site, linkedIn, contact, how) =>
    case AddParticipation(id, member, partner) =>
      var i := FindCompany(db.companies, id);
      if i < |db.companies| && !HasEvent(db.companies[i].participations, env.event) {
        AddParticipationKeepsGood(db.companies, i, NewParticipation(env.event, member, partner));
      }
    case Step(id, step) =>
      var t := StepTarget(db.companies, id, env.event, step);
      if t.Some? {
        EditKeepsGood(db.companies, id, env.event, SetStatus(t.value));
      }
    case EditParticipation(id, event, edit) => EditParticipationKeepsInv(db, id, event, edit, env);
    case EditCompany(id, edit) => EditCompanyKeepsInv(db, id, edit, env);
    case Announce => AnnounceKeepsGood(db.companies, env.event);
    case GetPublic(_) =>
    case CleanupTick =>
  }

  ghost predicate Run(start: Db, calls: seq<Call>, end: Db, env: Env)
    decreases |calls|
  {
    if calls == [] then start == end
    else Enabled(start, calls[0]) && Run(CallStep(start, calls[0], env), calls[1..], end, env)
  }

  lemma {:induction false} RunKeepsInv(start: Db, calls: seq<Call>, end: Db, env: Env)
    requires Inv(start, env) && Run(start, calls, end, env)
    ensures Inv(end, env)
    decreases |calls|
  {
    if calls == [] {
    } else {
      CallKeepsInv(start, calls[0], env);
      RunKeepsInv(CallStep(start, calls[0], env), calls[1..], end, env);
    }
  }

  /** Over every run from the empty collection a company has at most one participation for an
      event and what the cache holds is what a fresh computation gives. */
  lemma CacheAgrees(calls: seq<Call>, end: Db, env: Env)
    requires Run(Db([], None), calls, end, env)
    ensures end.cache.Some? ==> end.cache.value == FreshPublic(end.companies, env.event, env.packages)
    ensures forall i :: 0 <= i < |end.companies| ==> UniqueEvents(end.companies[i].participations)
  {
    RunKeepsInv(Db([], None), calls, end, env);
  }

  // ---- bulk announce is one step for each accepted participation ----

  /** StepStatus with step 1 for each id in turn; None if one of them fails. */
  function StepEach(cs: seq<Company>, ids: seq<Id>, event: int): Option<seq<Company>>
    decreases |ids|
  {
    if ids == [] then Some(cs)
    else
      var r := StepAt(cs, ids[0], event, 1);
      if r.None? then None else StepEach(r.value, ids[1..], event)
  }

  lemma AnnounceInIsStep(ps: seq<Participation>, event: int)
    requires UniqueEvents(ps)
    ensures HasAccepted(ps, event) <==> HasEvent(ps, event) && ps[FindEvent(ps, event)].status == Accepted
    ensures AnnounceIn(ps, event) ==
            if HasAccepted(ps, event) then EditFirst(ps, event, SetStatus(Announced)) else ps
  {
    var i := FindEvent(ps, event);
    if i < |ps| {
      assert ps[i] in ps;
    }
    assert forall j :: 0 <= j < |ps| && ps[j].event == event ==> j == i;
  }

  lemma StepAtLeavesHead(c: Company, rest: seq<Company>, id: Id, event: int, step: int)
    requires c.id != id
    ensures StepAt([c] + rest, id, event, step) == Prepend([c], StepAt(rest, id, event, step))
  {
    var cs, i := [c] + rest, FindCompany(rest, id);
    assert cs[1..] == rest;
    assert FindCompany(cs, id) == 1 + i;
    if i < |rest| {
      assert cs[1 + i] == rest[i];
      var t := StepTarget(rest, id, event, step);
      if t.Some? {
        var d := rest[i].(participations := EditFirst(rest[i].participations, event, SetStatus(t.value)));
        assert cs[1 + i := d] == [c] + rest[i := d];
      }
    }
  }

  lemma {:induction false} StepEachLeavesHead(c: Company, rest: seq<Company>, ids: seq<Id>, event: int)
    requires c.id !in ids
    ensures StepEach([c] + rest, ids, event) == Prepend([c], StepEach(rest, ids, event))
    decreases |ids|
  {
    if ids == [] {
    } else {
      assert ids[0] in ids;
      StepAtLeavesHead(c, rest, ids[0], event, 1);
      var r := StepAt(rest, ids[0], event, 1);
      if r.Some? {
        StepEachLeavesHead(c, r.value, ids[1..], event);
      }
    }
  }

  lemma {:induction false} AcceptedIdsAreIds(cs: seq<Company>, event: int, id: Id)
    requires id in AcceptedIds(cs, event)
    ensures exists i :: 0 <= i < |cs| && cs[i].id == id
  {
    if id in AcceptedIds(cs[1..], event) {
      AcceptedIdsAreIds(cs[1..], event, id);
      var i :| 0 <= i < |cs[1..]| && cs[1..][i].id == id;
      assert cs[i + 1].id == id;
    }
  }

  lemma StepAtHead(c: Company, rest: seq<Company>, event: int)
    requires UniqueEvents(c.participations)
    requires HasAccepted(c.participations, event)
    ensures StepAt([c] + rest, c.id, event, 1) == Some([c.(participations := AnnounceIn(c.participations, event))] + rest)
  {
    AnnounceInIsStep(c.participations, event);
    var cs := [c] + rest;
    assert FindCompany(cs, c.id) == 0;
    var c' := c.(participations := AnnounceIn(c.participations, event));
    assert cs[0 := c'] == [c'] + rest;
  }

  lemma AnnounceHead(c: Company, rest: seq<Company>, event: int)
    ensures AnnounceAll([c] + rest, event)
            == [c.(participations := AnnounceIn(c.participations, event))] + AnnounceAll(rest, event)
  {
  }

  /** AnnounceAcceptedCompanies is StepStatus with step 1 on every company whose participation in
      the current event is accepted, and all these steps succeed. */
  lemma {:induction false} AnnounceIsStepEach(cs: seq<Company>, event: int)
    requires GoodCompanies(cs)
    ensures StepEach(cs, AcceptedIds(cs, event), event) == Some(AnnounceAll(cs, event))
    decreases |cs|
  {
    if cs == [] {
      assert AnnounceAll(cs, event) == cs;
    } else {
      var c, rest := cs[0], cs[1..];
      assert cs == [c] + rest;
      AnnounceIsStepEach(rest, event);
      if c.id in AcceptedIds(rest, event) {
        AcceptedIdsAreIds(rest, event, c.id);
      }
      OneMoreAnnounced(c, rest, event);
    }
  }

  lemma OneMoreAnnounced(c: Company, rest: seq<Company>, event: int)
    requires UniqueEvents(c.participations) && c.id !in AcceptedIds(rest, event)
    requires StepEach(rest, AcceptedIds(rest, event), event) == Some(AnnounceAll(rest, event))
    ensures StepEach([c] + rest, AcceptedIds([c] + rest, event), event) == Some(AnnounceAll([c] + rest, event))
  {
    var ids := AcceptedIds(rest, event);
    assert ([c] + rest)[1..] == rest;
    var c' := c.(participations := AnnounceIn(c.participations, event));
    AnnounceHead(c, rest, event);
    StepEachLeavesHead(c', rest, ids, event);
    if HasAccepted(c.participations, event) {
      StepAtHead(c, rest, event);
      assert ([c.id] + ids)[1..] == ids;
    } else {
      AnnounceInIsStep(c.participations, event);
      assert c' == c && [] + ids == ids;
    }
  }

  // ---- the object ----

  class CompaniesType {
    const env: Env
    var companies: seq<Company>
    var cache: Option<seq<CompanyPublic>>

    ghost function View(): Db
      reads this
    {
      Db(companies, cache)
    }

    constructor (env: Env)
      ensures this.env == env && View() == Db([], None)
    {
      this.env, companies, cache := env, [], None;
    }

    /** `id` is the fresh id of the insert. The insert of the contact counts as part of it. */
    method CreateCompany(id: Id, name: string, description: string, site: string, linkedIn: string, contact: Id, how: Insert)
      returns (ok: bool)
      requires forall i :: 0 <= i < |companies| ==> companies[i].id != id
      modifies this
      ensures View() == CallStep(old(View()), Create(id, name, description, site, linkedIn, contact, how), env)
      ensures ok == how.Inserted?
      ensures how.InsertFails? ==> companies == old(companies)
      ensures !how.InsertFails? ==> |companies| == |old(companies)| + 1 && companies[..|old(companies)|] == old(companies)
      ensures !how.InsertFails? ==>
                var c := companies[|old(companies)|];
                && c.id == id && c.name == name && c.description == description && c.site == site && c.linkedIn == linkedIn
                && c.contact == contact && c.participations == [] && c.employers == [] && c.internalImage == c.publicImage == ""
      ensures cache == if ok then None else old(cache)
    {
      if how.InsertFails? {
        return false;
      }
      companies := companies + [NewCompany(id, name, description, site, linkedIn, contact)];
      if how.ReadBackFails? {
        return false;
      }
      cache := None;
      ok := true;
    }

    method AddParticipation(id: Id, member: Id, partner: bool) returns (ok: bool)
      modifies this
      ensures View() == CallStep(old(View()), Call.AddParticipation(id, member, partner), env)
      ensures ok <==> companies != old(companies)
      ensures var cs := old(companies);
              && (ok <==> exists i :: HasRoomFor(cs, id, env.event, i))
              && (ok ==> cache.None? && exists i :: HasRoomFor(cs, id, env.event, i)
                                                    && companies == cs[i := cs[i].(participations := companies[i].participations)]
                                                    && IsSuggested(cs[i].participations, companies[i].participations, env.event, member, partner))
      ensures !ok ==> View() == old(View())
    {
      var i := FindCompany(companies, id);
      HasRoomIff(companies, id, env.event);
      if i == |companies| || HasEvent(companies[i].participations, env.event) {
        return false;
      }
      var c := companies[i];
      companies := companies[i := c.(participations := c.participations + [NewParticipation(env.event, member, partner)])];
      cache := None;
      assert |companies[i].participations| != |old(companies)[i].participations|;
      ok := true;
    }

    /** FindOneAndUpdate with the positional operator, without the reset. */
    method UpdateFirst(id: Id, event: int, edit: Edit) returns (ok: bool)
      modifies `companies
      ensures var r := EditAt(old(companies), id, event, edit);
              ok == r.Some? && companies == OrElse(r, old(companies))
    {
      var i := FindCompany(companies, id);
      if i == |companies| || !HasEvent(companies[i].participations, event) {
        return false;
      }
      companies := companies[i := companies[i].(participations := EditFirst(companies[i].participations, event, edit))];
      ok := true;
    }

    method StepStatus(id: Id, step: int) returns (ok: bool)
      modifies this
      ensures View() == CallStep(old(View()), Step(id, step), env)
      ensures ok == StepTarget(old(companies), id, env.event, step).Some?
      ensures ok ==> Some(companies) == StepAt(old(companies), id, env.event, step) && cache.None?
      ensures !ok ==> View() == old(View())
    {
      var at := FindCompany(companies, id);
      if at == |companies| {
        return false;
      }
      var ps := companies[at].participations;
      var i := 0;
      while i < |ps|
        invariant i <= |ps| && View() == old(View())
        invariant forall j :: 0 <= j < i ==> ps[j].event != env.event
      {
        if ps[i].event != env.event {
          i := i + 1;
          continue;
        }
        assert FindEvent(ps, env.event) == i;
        var cell := new StatusCell(ps[i].status);
        var e := cell.Next(step);
        if e.Some? {
          return false;
        }
        ok := UpdateFirst(id, env.event, SetStatus(cell.status));
        cache := None;
        return;
      }
      assert FindEvent(ps, env.event) == i;
      ok := false;
    }

    /** The calls that update fields of one participation. */
    method UpdateParticipation(id: Id, event: int, edit: Edit) returns (ok: bool)
      modifies this
      ensures View() == CallStep(old(View()), EditParticipation(id, event, edit), env)
      ensures ok == EditAt(old(companies), id, event, edit).Some?
      ensures ok ==> Some(companies) == EditAt(old(companies), id, event, edit)
      ensures cache == if ok && (edit.SetStatus? || edit.SetData? || edit.SetPackage? || edit.SetBilling?) then None else old(cache)
    {
      ok := UpdateFirst(id, event, edit);
      if ok && Resets(edit) {
        cache := None;
      }
    }

    /** The calls that update fields of the company itself. */
    method UpdateCompany(id: Id, edit: CompanyEdit) returns (ok: bool)
      modifies this
      ensures View() == CallStep(old(View()), EditCompany(id, edit), env)
      ensures ok == (FindCompany(old(companies), id) < |old(companies)|)
      ensures ok ==> var i := FindCompany(old(companies), id); var c := old(companies)[i];
                     companies == old(companies)[i := companies[i]] && CompanyEdited(c, edit, companies[i])
      ensures cache == if ok && (edit.SetInfo? || edit.SetInternalImage? || edit.SetPublicImage?) then None else old(cache)
    {
      var i := FindCompany(companies, id);
      if i == |companies| {
        return false;
      }
      companies := companies[i := ApplyCompanyEdit(companies[i], edit)];
      if CompanyResets(edit) {
        cache := None;
      }
      ok := true;
    }

    /** Answers how many companies changed. */
    method AnnounceAcceptedCompanies() returns (count: nat)
      modifies this
      ensures View() == CallStep(old(View()), Announce, env)
      ensures count == |AcceptedIds(old(companies), env.event)|
      ensures cache.None? && |companies| == |old(companies)|
      ensures forall i :: 0 <= i < |companies| ==> IsAnnouncedFrom(old(companies)[i], companies[i], env.event)
    {
      count := AnnounceEach();
      cache := None;
    }

    /** The update of many documents, one after another. */
    method AnnounceEach() returns (count: nat)
      modifies `companies
      ensures companies == AnnounceAll(old(companies), env.event) && count == |AcceptedIds(old(companies), env.event)|
    {
      ghost var was := companies;
      count := 0;
      AnnouncedEnds(was, env.event);
      var i := 0;
      while i < |companies|
        invariant i <= |was| && companies == AnnouncedUpTo(was, env.event, i)
        invariant count + AcceptedFrom(was, i, env.event) == |AcceptedIds(was, env.event)|
      {
        AcceptedOneMore(was, i, env.event);
        AnnouncedOneMore(was, i, env.event);
        if HasAccepted(companies[i].participations, env.event) {
          count := count + 1;
        }
        companies := companies[i := companies[i].(participations := AnnounceIn(companies[i].participations, env.event))];
        i := i + 1;
      }
    }

    /** GetPublicCompanies with its three options, which are a logical and. */
    method GetPublicCompanies(q: Query) returns (public: seq<CompanyPublic>)
      modifies `cache
      ensures View() == CallStep(old(View()), GetPublic(q), env)
      ensures public == if q == UNFILTERED && old(cache).Some? then old(cache).value else PublicFor(companies, q, env)
      ensures Inv(old(View()), env) ==> public == PublicFor(companies, q, env)
    {
      UnfilteredIsFresh(companies, env);
      public := CachedOrFresh(q);
    }

    method CachedOrFresh(q: Query) returns (public: seq<CompanyPublic>)
      modifies `cache
      ensures public == if q == UNFILTERED && old(cache).Some? then old(cache).value else PublicFor(companies, q, env)
      ensures cache == if q == UNFILTERED && old(cache).None? then Some(PublicFor(companies, q, env)) else old(cache)
    {
      if q == UNFILTERED && cache.Some? {
        return cache.value;
      }
      public := RunQuery(q);
      if q == UNFILTERED && cache.None? {
        cache := Some(public);
      }
    }

    /** The query and the conversion of what it finds. */
    method RunQuery(q: Query) returns (public: seq<CompanyPublic>)
      ensures public == PublicFor(companies, q, env)
    {
      var event := if q.eventId.Some? then q.eventId.value else env.event;
      public := [];
      var i := 0;
      while i < |companies|
        invariant i <= |companies|
        invariant public == FreshPublic(Selection(companies[..i], q, env), event, env.packages)
      {
        SelectionOneMore(companies, i, q, env, event);
        var c := companies[i];
        if HasEvent(c.participations, event) && Passes(c, q, env) {
          var p := CompanyToPublic(c, Some(event), env.packages);
          if p.Some? {
            public := public + [p.value];
          }
        }
        i := i + 1;
      }
      assert companies[..i] == companies;
    }

    /** One tick of CleanupCache, as far as the companies are concerned. */
    method ResetCurrentPublicCompanies()
      modifies `cache
      ensures View() == CallStep(old(View()), CleanupTick, env) && cache.None?
    {
      cache := None;
    }
  }

  /** The i-th company is the first with the id and has no participation on the event. */
  ghost predicate HasRoomFor(cs: seq<Company>, id: Id, event: int, i: int) {
    && 0 <= i < |cs| && cs[i].id == id && (forall j :: 0 <= j < i ==> cs[j].id != id)
    && forall k :: 0 <= k < |cs[i].participations| ==> cs[i].participations[k].event != event
  }

  lemma HasRoomIff(cs: seq<Company>, id: Id, event: int)
    ensures var i := FindCompany(cs, id);
            && ((exists j :: HasRoomFor(cs, id, event, j)) <==> i < |cs| && !HasEvent(cs[i].participations, event))
            && (i < |cs| && !HasEvent(cs[i].participations, event) ==> HasRoomFor(cs, id, event, i))
  {
    var i := FindCompany(cs, id);
    if i < |cs| && !HasEvent(cs[i].participations, event) {
      assert HasRoomFor(cs, id, event, i);
    }
  }

  /** A suggested participation was added, with the member as its only subscriber and nothing settled. */
  ghost predicate IsSuggested(ps: seq<Participation>, qs: seq<Participation>, event: int, member: Id, partner: bool) {
    && |qs| == |ps| + 1 && qs[..|ps|] == ps
    && var p := qs[|ps|];
       && p.event == event && p.member == member && p.partner == partner && p.status == Suggested
       && p.subscribers == [member] && p.communications == [] && p.stands == [] && p.gmailThreadIds == []
       && p.standDetails == StandDetails(0, false, false) && p.notes == "" && p.package.None? && p.billing.None? && p.confirmed.None?
  }

  /** Only accepted participations on the event changed, and only their status. */
  ghost predicate IsAnnouncedFrom(c: Company, d: Company, event: int) {
    && d == c.(participations := d.participations) && |d.participations| == |c.participations|
    && forall k :: 0 <= k < |c.participations| ==>
                     var p := c.participations[k];
                     d.participations[k] == if p.event == event && p.status == Accepted then p.(status := Announced) else p
  }

  /** The collection after the update came to the i-th company. */
  function AnnouncedUpTo(cs: seq<Company>, event: int, i: nat): (out: seq<Company>)
    requires i <= |cs|
    ensures |out| == |cs|
  {
    AnnounceAll(cs[..i], event) + cs[i..]
  }

  lemma AnnouncedEnds(cs: seq<Company>, event: int)
    ensures AnnouncedUpTo(cs, event, 0) == cs && AnnouncedUpTo(cs, event, |cs|) == AnnounceAll(cs, event)
    ensures AcceptedFrom(cs, 0, event) == |AcceptedIds(cs, event)| && AcceptedFrom(cs, |cs|, event) == 0
  {
    assert cs[..|cs|] == cs && cs[0..] == cs;
  }

  lemma AnnouncedOneMore(cs: seq<Company>, i: nat, event: int)
    requires i < |cs|
    ensures var before := AnnouncedUpTo(cs, event, i);
            before[i] == cs[i]
            && AnnouncedUpTo(cs, event, i + 1) == before[i := cs[i].(participations := AnnounceIn(cs[i].participations, event))]
  {
  }

  function AcceptedFrom(cs: seq<Company>, i: nat, event: int): nat
    requires i <= |cs|
  {
    |AcceptedIds(cs[i..], event)|
  }

  lemma AcceptedOneMore(cs: seq<Company>, i: nat, event: int)
    requires i < |cs|
    ensures AcceptedFrom(cs, i, event) == AcceptedFrom(cs, i + 1, event) + if HasAccepted(cs[i].participations, event) then 1 else 0
  {
    assert cs[i..][0] == cs[i] && cs[i..][1..] == cs[i + 1..];
  }

  lemma SelectionOneMore(cs: seq<Company>, i: nat, q: Query, env: Env, event: int)
    requires i < |cs|
    ensures var c := cs[i]; var p := ToPublic(c, Some(event), env.packages);
            FreshPublic(Selection(cs[..i + 1], q, env), event, env.packages)
            == FreshPublic(Selection(cs[..i], q, env), event, env.packages)
               + if HasEvent(c.participations, event) && Passes(c, q, env) && p.Some? then [p.value] else []
  {
    var before := Selection(cs[..i], q, env);
    assert cs[..i + 1][..i] == cs[..i];
    if Passes(cs[i], q, env) {
      FreshOneMore(before, cs[i], event, env.packages);
      assert Selection(cs[..i + 1], q, env) == before + [cs[i]];
    } else {
      assert before + [] == before;
    }
  }

  lemma FreshOneMore(cs: seq<Company>, c: Company, event: int, packages: Packages)
    ensures var p := ToPublic(c, Some(event), packages);
            FreshPublic(cs + [c], event, packages)
            == FreshPublic(cs, event, packages) + if HasEvent(c.participations, event) && p.Some? then [p.value] else []
  {
    assert (cs + [c])[..|cs|] == cs;
  }
}
