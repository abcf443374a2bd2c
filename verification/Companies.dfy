/**
  Companies, their participations and the cached public list: mongodb/company.go and
  models/company.go. The collection is a sequence in natural order; an update with the
  positional operator changes the first element that matches.
*/
module Companies {
  import opened Wrappers
  import opened ParticipationStatus
  import opened Search

  type Id = nat

  datatype Stand = Stand(standId: string, date: Option<int>)

  datatype StandDetails = StandDetails(chairs: int, table: bool, lettering: bool)

  datatype Participation = Participation(
    event: int,
    member: Id,
    status: Status,
    communications: seq<Id>,
    subscribers: seq<Id>,
    package: Option<Id>,
    billing: Option<Id>,
    confirmed: Option<int>,
    partner: bool,
    notes: string,
    gmailThreadIds: seq<string>,
    standDetails: StandDetails,
    stands: seq<Stand>)

  datatype BillingInfo = BillingInfo(name: string, address: string, tin: string)

  datatype Company = Company(
    id: Id,
    name: string,
    description: string,
    internalImage: string,
    publicImage: string,
    site: string,
    linkedIn: string,
    employers: seq<Id>,
    billingInfo: BillingInfo,
    participations: seq<Participation>,
    contact: Id)

  datatype PackageItem = PackageItem(item: Id, quantity: int, public: bool)

  datatype Package = Package(name: string, items: seq<PackageItem>)

  datatype PackagePublic = PackagePublic(name: string, items: seq<(Id, int)>)

  datatype ParticipationPublic = ParticipationPublic(
    event: int, partner: bool, package: PackagePublic, standDetails: StandDetails, stands: seq<Stand>)

  datatype CompanyPublic = CompanyPublic(
    id: Id, name: string, image: string, site: string, participations: seq<ParticipationPublic>)

  const EMPTY_PACKAGE := PackagePublic("", [])

  type Packages = map<Id, Package>

  // ---- participations as a map from event ----

  ghost predicate UniqueEvents(ps: seq<Participation>) {
    forall i, j :: 0 <= i < j < |ps| ==> ps[i].event != ps[j].event
  }

  /** The position of the first participation on the event, or the length. */
  function FindEvent(ps: seq<Participation>, event: int): (i: nat)
    ensures i <= |ps| && (i < |ps| ==> ps[i].event == event)
    ensures forall j :: 0 <= j < i ==> ps[j].event != event
  {
    IndexOf(ps, (p: Participation) => p.event == event)
  }

  predicate HasEvent(ps: seq<Participation>, event: int) {
    FindEvent(ps, event) < |ps|
  }

  /** What a list of participations stands for. */
  function ByEvent(ps: seq<Participation>): map<int, Participation> {
    if ps == [] then map[] else ByEvent(ps[1..])[ps[0].event := ps[0]]
  }

  lemma {:induction false} ByEventIsLookup(ps: seq<Participation>, event: int)
    ensures event in ByEvent(ps) <==> HasEvent(ps, event)
    ensures event in ByEvent(ps) ==> ByEvent(ps)[event] == ps[FindEvent(ps, event)]
  {
    if ps == [] {
    } else {
      ByEventIsLookup(ps[1..], event);
    }
  }

  /** The updates of the fields of one participation. */
  datatype Edit =
    | SetStatus(status: Status)
    | SetData(member: Id, partner: bool, notes: string, confirmed: Option<int>)
    | SetPackage(package: Id)
    | SetBilling(billing: Id)
    | UnsetBilling
    | SetGmailThreadIds(ids: seq<string>)
    | AddSubscriber(subscriber: Id)
    | RemoveSubscriber(subscriber: Id)
    | AddThread(thread: Id)
    | RemoveThread(thread: Id)

  /** $addToSet and $pull */
  function AddToSet(s: seq<Id>, x: Id): seq<Id> {
    if x in s then s else s + [x]
  }

  function Pull(s: seq<Id>, x: Id): (out: seq<Id>)
    ensures x !in out && forall y :: y in out <==> y in s && y != x
  {
    if s == [] then [] else (if s[0] == x then [] else [s[0]]) + Pull(s[1..], x)
  }

  function ApplyEdit(p: Participation, e: Edit): (q: Participation)
    ensures q.event == p.event
  {
    match e
    case SetStatus(s) => p.(status := s)
    case SetData(member, partner, notes, confirmed) =>
      p.(member := member, partner := partner, notes := notes, confirmed := confirmed)
    case SetPackage(package) => p.(package := Some(package))
    case SetBilling(billing) => p.(billing := Some(billing))
    case UnsetBilling => p.(billing := None)
    case SetGmailThreadIds(ids) => p.(gmailThreadIds := ids)
    case AddSubscriber(m) => p.(subscribers := AddToSet(p.subscribers, m))
    case RemoveSubscriber(m) => p.(subscribers := Pull(p.subscribers, m))
    case AddThread(t) => p.(communications := AddToSet(p.communications, t))
    case RemoveThread(t) => p.(communications := Pull(p.communications, t))
  }

  /** $pull takes out every occurrence and nothing else, and keeps the order. */
  lemma {:induction false} PullConcat(s: seq<Id>, t: seq<Id>, x: Id)
    ensures Pull(s + t, x) == Pull(s, x) + Pull(t, x)
  {
    if s == [] {
      assert s + t == t;
    } else {
      var head := if s[0] == x then [] else [s[0]];
      assert (s + t)[1..] == s[1..] + t;
      PullConcat(s[1..], t, x);
      assert Pull(s + t, x) == head + (Pull(s[1..], x) + Pull(t, x));
    }
  }

  lemma PullsOnlyThat(s: seq<Id>, y: Id, t: seq<Id>, x: Id)
    ensures Pull(s + [y] + t, x) == Pull(s, x) + (if y == x then [] else [y]) + Pull(t, x)
    ensures Pull([], x) == []
  {
    PullConcat(s + [y], t, x);
    PullConcat(s, [y], x);
  }

  /** What becomes of each field, over all updates. */
  ghost predicate Edited(p: Participation, e: Edit, q: Participation) {
    && q.event == p.event && q.standDetails == p.standDetails && q.stands == p.stands
    && q.status == (if e.SetStatus? then e.status else p.status)
    && q.member == (if e.SetData? then e.member else p.member)
    && q.partner == (if e.SetData? then e.partner else p.partner)
    && q.notes == (if e.SetData? then e.notes else p.notes)
    && q.confirmed == (if e.SetData? then e.confirmed else p.confirmed)
    && q.package == (if e.SetPackage? then Some(e.package) else p.package)
    && q.billing == (if e.SetBilling? then Some(e.billing) else if e.UnsetBilling? then None else p.billing)
    && q.gmailThreadIds == (if e.SetGmailThreadIds? then e.ids else p.gmailThreadIds)
    && (e.RemoveSubscriber? ==> q.subscribers == Pull(p.subscribers, e.subscriber))
    && (!e.RemoveSubscriber? ==> q.subscribers == p.subscribers + if e.AddSubscriber? && e.subscriber !in p.subscribers then [e.subscriber] else [])
    && (e.RemoveThread? ==> q.communications == Pull(p.communications, e.thread))
    && (!e.RemoveThread? ==> q.communications == p.communications + if e.AddThread? && e.thread !in p.communications then [e.thread] else [])
  }

  /** Each update sets its own fields and no others; what it adds is there once. */
  lemma EditSetsItsFields(p: Participation, e: Edit)
    ensures Edited(p, e, ApplyEdit(p, e))
  {
    assert p.subscribers + [] == p.subscribers && p.communications + [] == p.communications;
  }

  /** The positional update: the first participation on the event changes. */
  function EditFirst(ps: seq<Participation>, event: int, e: Edit): (out: seq<Participation>)
    ensures |out| == |ps| && forall i :: 0 <= i < |ps| ==> out[i].event == ps[i].event
  {
    var i := FindEvent(ps, event);
    if i < |ps| then ps[i := ApplyEdit(ps[i], e)] else ps
  }

  /** The list refines the map: a positional update is the update of one key. */
  lemma EditFirstIsMapUpdate(ps: seq<Participation>, event: int, e: Edit)
    requires event in ByEvent(ps)
    ensures ByEvent(EditFirst(ps, event, e)) == ByEvent(ps)[event := ApplyEdit(ByEvent(ps)[event], e)]
  {
    var i := FindEvent(ps, event);
    ByEventIsLookup(ps, event);
    ReplaceIsMapUpdate(ps, i, ApplyEdit(ps[i], e));
  }

  lemma {:induction false} ReplaceIsMapUpdate(ps: seq<Participation>, i: nat, q: Participation)
    requires i < |ps| && q.event == ps[i].event && forall j :: 0 <= j < i ==> ps[j].event != q.event
    ensures ByEvent(ps[i := q]) == ByEvent(ps)[q.event := q]
  {
    if i == 0 {
      assert ps[0 := q][1..] == ps[1..];
    } else {
      assert ps[i := q][1..] == ps[1..][i - 1 := q];
      ReplaceIsMapUpdate(ps[1..], i - 1, q);
    }
  }

  function NewParticipation(event: int, member: Id, partner: bool): Participation {
    Participation(event, member, Suggested, [], [member], None, None, None, partner, "", [], StandDetails(0, false, false), [])
  }

  /** AddParticipation appends unless the event is there, which is adding a key to the map. */
  lemma {:induction false} AppendIsMapInsert(ps: seq<Participation>, p: Participation)
    requires p.event !in ByEvent(ps)
    ensures ByEvent(ps + [p]) == ByEvent(ps)[p.event := p]
  {
    if ps == [] {
    } else {
      assert (ps + [p])[1..] == ps[1..] + [p];
      AppendIsMapInsert(ps[1..], p);
    }
  }

  // ---- the public view ----

  function PublicItems(items: seq<PackageItem>): seq<(Id, int)> {
    if items == [] then []
    else PublicItems(items[..|items| - 1])
         + if items[|items| - 1].public then [(items[|items| - 1].item, items[|items| - 1].quantity)] else []
  }

  lemma {:induction false} PublicItemsConcat(items: seq<PackageItem>, more: seq<PackageItem>)
    ensures PublicItems(items + more) == PublicItems(items) + PublicItems(more)
    decreases |more|
  {
    if more == [] {
      assert items + more == items;
    } else {
      var n := |more| - 1;
      PublicItemsConcat(items, more[..n]);
      assert (items + more)[..|items| + n] == items + more[..n];
    }
  }

  /** Exactly the public items are shown, in order, each with its quantity. */
  lemma PublicItemsAre(items: seq<PackageItem>, it: PackageItem, more: seq<PackageItem>)
    ensures PublicItems(items + [it] + more)
            == PublicItems(items) + (if it.public then [(it.item, it.quantity)] else []) + PublicItems(more)
  {
    PublicItemsConcat(items + [it], more);
    PublicItemsConcat(items, [it]);
    assert [it][..0] == [];
  }

  /** The entry for one iteration: the event of the current participation and the rest from the
      one the loop carries. */
  function PublicEntry(event: int, shown: Participation, packages: Packages): ParticipationPublic {
    var package :=
      if shown.package.Some? && shown.package.value in packages then
        var p := packages[shown.package.value]; PackagePublic(p.name, PublicItems(p.items))
      else EMPTY_PACKAGE;
    ParticipationPublic(event, shown.partner, package, shown.standDetails, shown.stands)
  }

  function Prepend<T>(s: seq<T>, rest: Option<seq<T>>): Option<seq<T>> {
    if rest.None? then None else Some(s + rest.value)
  }

  lemma PrependTwice<T>(s: seq<T>, t: seq<T>, rest: Option<seq<T>>)
    ensures Prepend(s, Prepend(t, rest)) == Prepend(s + t, rest)
  {
    if rest.Some? {
      assert s + (t + rest.value) == s + t + rest.value;
    }
  }

  /** The loop of companyToPublic; `shown` survives from one iteration to the next. */
  function PublicFrom(ps: seq<Participation>, shown: Option<Participation>, event: Option<int>, packages: Packages):
    Option<seq<ParticipationPublic>>
  {
    if ps == [] then Some([]) else
    var p := ps[0];
    if event.Some? && p.event == event.value && p.status != Announced then None else
    var now := if (event.None? && p.status == Announced) || (event.Some? && p.event == event.value) then Some(p) else shown;
    Prepend(if now.Some? then [PublicEntry(p.event, now.value, packages)] else [], PublicFrom(ps[1..], now, event, packages))
  }

  function ToPublic(c: Company, event: Option<int>, packages: Packages): Option<CompanyPublic> {
    var ps := PublicFrom(c.participations, None, event, packages);
    if ps.None? then None else Some(CompanyPublic(c.id, c.name, c.publicImage, c.site, ps.value))
  }

  /** The body of one iteration once there is something to show. */
  method MakeEntry(event: int, shown: Participation, packages: Packages) returns (entry: ParticipationPublic)
    ensures entry == PublicEntry(event, shown, packages)
    ensures entry.event == event && entry.partner == shown.partner
    ensures entry.standDetails == shown.standDetails && entry.stands == shown.stands
    ensures (exists id :: shown.package == Some(id) && id in packages && entry.package.name == packages[id].name
                          && entry.package.items == PublicItems(packages[id].items))
            || (entry.package == EMPTY_PACKAGE && forall id :: shown.package == Some(id) ==> id !in packages)
  {
    entry := ParticipationPublic(event, shown.partner, EMPTY_PACKAGE, shown.standDetails, shown.stands);
    if shown.package.Some? && shown.package.value in packages {
      var pack := packages[shown.package.value];
      var items := [];
      var i := 0;
      while i < |pack.items|
        invariant i <= |pack.items| && items == PublicItems(pack.items[..i])
      {
        var item := pack.items[i];
        assert pack.items[..i + 1][..i] == pack.items[..i];
        if item.public {
          items := items + [(item.item, item.quantity)];
        }
        i := i + 1;
      }
      assert pack.items[..i] == pack.items;
      entry := entry.(package := PackagePublic(pack.name, items));
    }
  }

  method CompanyToPublic(c: Company, event: Option<int>, packages: Packages) returns (r: Option<CompanyPublic>)
    ensures r == ToPublic(c, event, packages)
    ensures r.Some? ==> r.value.id == c.id && r.value.name == c.name && r.value.image == c.publicImage && r.value.site == c.site
                        && Some(r.value.participations) == PublicFrom(c.participations, None, event, packages)
    ensures r.None? <==> PublicFrom(c.participations, None, event, packages).None?
  {
    var out := [];
    var shown: Option<Participation> := None;
    var i := 0;
    ghost var all := PublicFrom(c.participations, None, event, packages);
    assert c.participations[0..] == c.participations;
    assert all.Some? ==> [] + all.value == all.value;
    while i < |c.participations|
      invariant i <= |c.participations|
      invariant all == Prepend(out, PublicFrom(c.participations[i..], shown, event, packages))
    {
      ghost var before := out;
      var p := c.participations[i];
      assert c.participations[i..][1..] == c.participations[i + 1..];
      if event.None? && p.status == Announced {
        shown := Some(p);
      } else if event.Some? {
        if p.event == event.value {
          if p.status != Announced {
            return None;
          }
          shown := Some(p);
        }
      }
      if shown.Some? {
        var entry := MakeEntry(p.event, shown.value, packages);
        out := out + [entry];
      }
      i := i + 1;
      PrependTwice(before, if shown.Some? then [PublicEntry(p.event, shown.value, packages)] else [],
                   PublicFrom(c.participations[i..], shown, event, packages));
      assert before + [] == before;
    }
    assert c.participations[i..] == [] && out + [] == out;
    r := Some(CompanyPublic(c.id, c.name, c.publicImage, c.site, out));
  }

  /** What companyToPublic reads of a participation. */
  ghost predicate SameView(p: Participation, q: Participation) {
    && p.event == q.event && p.status == q.status && p.partner == q.partner && p.package == q.package
    && p.standDetails == q.standDetails && p.stands == q.stands
  }

  lemma {:induction false} PublicReadsOnlyTheView(
    ps: seq<Participation>, qs: seq<Participation>, shown: Option<Participation>, shown': Option<Participation>,
    event: Option<int>, packages: Packages)
    requires |ps| == |qs| && forall i :: 0 <= i < |ps| ==> SameView(ps[i], qs[i])
    requires shown.Some? <==> shown'.Some?
    requires shown.Some? ==> SameView(shown.value, shown'.value)
    ensures PublicFrom(ps, shown, event, packages) == PublicFrom(qs, shown', event, packages)
    decreases |ps|
  {
    if ps == [] {
    } else {
      var p, q := ps[0], qs[0];
      var takes := (event.None? && p.status == Announced) || (event.Some? && p.event == event.value);
      PublicReadsOnlyTheView(ps[1..], qs[1..], if takes then Some(p) else shown, if takes then Some(q) else shown', event, packages);
    }
  }

  /** One entry for each participation, all of them with the details of `shown`. */
  ghost predicate Repeats(out: seq<ParticipationPublic>, ps: seq<Participation>, shown: Participation, packages: Packages) {
    |out| == |ps| && forall k :: 0 <= k < |out| ==> out[k] == PublicEntry(ps[k].event, shown, packages)
  }

  /** For one event the view starts at that event's participation and then repeats its details for
      every later participation of the company. */
  lemma {:induction false} PublicForEvent(ps: seq<Participation>, event: int, packages: Packages)
    requires UniqueEvents(ps)
    ensures var i := FindEvent(ps, event); var out := PublicFrom(ps, None, Some(event), packages);
            && (out.None? <==> i < |ps| && ps[i].status != Announced)
            && (out.Some? ==> if i < |ps| then Repeats(out.value, ps[i..], ps[i], packages) else out.value == [])
    decreases |ps|
  {
    if ps == [] {
    } else {
      var rest := ps[1..];
      if ps[0].event == event {
        CarriesOn(rest, ps[0], event, packages);
        assert ps[0..] == ps;
      } else {
        PublicForEvent(rest, event, packages);
        PrependNothing(PublicFrom(rest, None, Some(event), packages));
        assert rest[FindEvent(rest, event)..] == ps[FindEvent(ps, event)..];
      }
    }
  }

  lemma PrependNothing<T>(rest: Option<seq<T>>)
    ensures Prepend([], rest) == rest
  {
    if rest.Some? {
      assert [] + rest.value == rest.value;
    }
  }

  lemma {:induction false} CarriesOn(ps: seq<Participation>, shown: Participation, event: int, packages: Packages)
    requires forall i :: 0 <= i < |ps| ==> ps[i].event != event
    ensures var out := PublicFrom(ps, Some(shown), Some(event), packages);
            out.Some? && Repeats(out.value, ps, shown, packages)
    decreases |ps|
  {
    if ps == [] {
    } else {
      CarriesOn(ps[1..], shown, event, packages);
    }
  }

  /** The documented result, only the participation of the wanted event, is what a company gets
      exactly when that participation is its last one. */
  lemma OnlyThatEventIff(ps: seq<Participation>, event: int, packages: Packages)
    requires UniqueEvents(ps) && HasEvent(ps, event) && ps[FindEvent(ps, event)].status == Announced
    ensures var i := FindEvent(ps, event);
            PublicFrom(ps, None, Some(event), packages) == Some([PublicEntry(event, ps[i], packages)]) <==> i == |ps| - 1
  {
    PublicForEvent(ps, event, packages);
    var i, out := FindEvent(ps, event), PublicFrom(ps, None, Some(event), packages).value;
    if i == |ps| - 1 {
      assert out == [out[0]];
    }
  }

  // ---- the view of one company without an event ----

  function FirstAnnounced(ps: seq<Participation>): (i: nat)
    ensures i <= |ps| && (i < |ps| ==> ps[i].status == Announced)
    ensures forall j :: 0 <= j < i ==> ps[j].status != Announced
  {
    IndexOf(ps, (p: Participation) => p.status == Announced)
  }

  /** What the loop carries after the participation at k. */
  function Carried(ps: seq<Participation>, k: nat, shown: Option<Participation>): Option<Participation>
    requires k < |ps|
  {
    if ps[k].status == Announced then Some(ps[k]) else if k == 0 then shown else Carried(ps, k - 1, shown)
  }

  /** Without an earlier one it is the last announced participation, if there is any. */
  lemma {:induction false} CarriedIsLastAnnounced(ps: seq<Participation>, k: nat)
    requires k < |ps|
    ensures Carried(ps, k, None).None? ==> forall j :: 0 <= j <= k ==> ps[j].status != Announced
    ensures Carried(ps, k, None).Some? ==>
              exists j :: 0 <= j <= k && ps[j].status == Announced && Carried(ps, k, None) == Some(ps[j])
                          && forall i :: j < i <= k ==> ps[i].status != Announced
  {
    if ps[k].status == Announced {
      assert Carried(ps, k, None) == Some(ps[k]);
    } else if k > 0 {
      CarriedIsLastAnnounced(ps, k - 1);
    }
  }

  lemma {:induction false} CarriedShift(ps: seq<Participation>, k: nat, shown: Option<Participation>)
    requires 0 < k < |ps|
    ensures Carried(ps, k, shown) == Carried(ps[1..], k - 1, if ps[0].status == Announced then Some(ps[0]) else shown)
  {
    if k > 1 {
      CarriedShift(ps, k - 1, shown);
    }
  }

  /** The entry has the details that are carried at its participation. */
  ghost predicate ShownAt(entry: ParticipationPublic, ps: seq<Participation>, shown: Option<Participation>, packages: Packages, k: nat) {
    k < |ps| && Carried(ps, k, shown).Some? && entry == PublicEntry(ps[k].event, Carried(ps, k, shown).value, packages)
  }

  /** One entry for each participation. */
  ghost predicate Shows(out: seq<ParticipationPublic>, ps: seq<Participation>, shown: Option<Participation>, packages: Packages) {
    |out| == |ps| && forall k :: 0 <= k < |out| ==> ShownAt(out[k], ps, shown, packages, k)
  }

  lemma ShownLater(entry: ParticipationPublic, ps: seq<Participation>, shown: Option<Participation>, now: Participation, packages: Packages, k: nat)
    requires 1 <= k < |ps| && Some(now) == if ps[0].status == Announced then Some(ps[0]) else shown
    requires ShownAt(entry, ps[1..], Some(now), packages, k - 1)
    ensures ShownAt(entry, ps, shown, packages, k)
  {
    CarriedShift(ps, k, shown);
    assert ps[1..][k - 1] == ps[k];
  }

  lemma ShowsOneMore(out: seq<ParticipationPublic>, ps: seq<Participation>, shown: Option<Participation>, now: Participation, packages: Packages)
    requires ps != [] && Some(now) == if ps[0].status == Announced then Some(ps[0]) else shown
    requires Shows(out, ps[1..], Some(now), packages)
    ensures Shows([PublicEntry(ps[0].event, now, packages)] + out, ps, shown, packages)
  {
    var all := [PublicEntry(ps[0].event, now, packages)] + out;
    forall k | 0 <= k < |all|
      ensures ShownAt(all[k], ps, shown, packages, k)
    {
      if k > 0 {
        assert all[k] == out[k - 1];
        ShownLater(all[k], ps, shown, now, packages, k);
      }
    }
  }

  lemma {:induction false} ShowsFrom(ps: seq<Participation>, shown: Participation, packages: Packages)
    ensures var out := PublicFrom(ps, Some(shown), None, packages); out.Some? && Shows(out.value, ps, Some(shown), packages)
    decreases |ps|
  {
    if ps == [] {
      assert PublicFrom(ps, Some(shown), None, packages) == Some([]);
    } else {
      var now := if ps[0].status == Announced then ps[0] else shown;
      ShowsFrom(ps[1..], now, packages);
      ShowsOneMore(PublicFrom(ps[1..], Some(now), None, packages).value, ps, Some(shown), now, packages);
    }
  }

  /** Without an event the view never fails, starts at the first announced participation and shows
      for every participation from there on the details of the last announced one so far. */
  lemma {:induction false} PublicWithoutEvent(ps: seq<Participation>, packages: Packages)
    ensures var out := PublicFrom(ps, None, None, packages);
            out.Some? && Shows(out.value, ps[FirstAnnounced(ps)..], None, packages)
    decreases |ps|
  {
    if ps == [] {
      assert PublicFrom(ps, None, None, packages) == Some([]);
    } else if ps[0].status == Announced {
      ShowsFrom(ps[1..], ps[0], packages);
      ShowsOneMore(PublicFrom(ps[1..], Some(ps[0]), None, packages).value, ps, None, ps[0], packages);
      assert ps[0..] == ps;
    } else {
      PublicWithoutEvent(ps[1..], packages);
      PrependNothing(PublicFrom(ps[1..], None, None, packages));
      assert ps[FirstAnnounced(ps)..] == ps[1..][FirstAnnounced(ps[1..])..];
    }
  }

  /** The documented result: the participations in which the company was announced. */
  function AnnouncedEntries(ps: seq<Participation>, packages: Packages): (out: seq<ParticipationPublic>)
    ensures |out| <= |ps|
  {
    if ps == [] then []
    else (if ps[0].status == Announced then [PublicEntry(ps[0].event, ps[0], packages)] else []) + AnnouncedEntries(ps[1..], packages)
  }

  lemma {:induction false} AnnouncedEntriesCount(ps: seq<Participation>, packages: Packages)
    ensures |AnnouncedEntries(ps, packages)| == |ps| <==> forall j :: 0 <= j < |ps| ==> ps[j].status == Announced
  {
    if ps == [] {
      assert AnnouncedEntries(ps, packages) == [];
    } else {
      AnnouncedEntriesCount(ps[1..], packages);
      assert (forall j :: 0 <= j < |ps| ==> ps[j].status == Announced) <==>
             ps[0].status == Announced && forall j :: 0 <= j < |ps[1..]| ==> ps[1..][j].status == Announced;
    }
  }

  lemma {:induction false} AnnouncedEntriesAt(ps: seq<Participation>, packages: Packages, k: nat)
    requires k < |ps| && forall j :: 0 <= j < |ps| ==> ps[j].status == Announced
    ensures |AnnouncedEntries(ps, packages)| == |ps|
    ensures AnnouncedEntries(ps, packages)[k] == PublicEntry(ps[k].event, ps[k], packages)
  {
    AnnouncedEntriesCount(ps, packages);
    if k > 0 {
      AnnouncedEntriesAt(ps[1..], packages, k - 1);
    }
  }

  lemma {:induction false} AnnouncedEntriesStart(ps: seq<Participation>, packages: Packages)
    ensures AnnouncedEntries(ps, packages) == AnnouncedEntries(ps[FirstAnnounced(ps)..], packages)
  {
    if ps == [] || ps[0].status == Announced {
      assert ps[FirstAnnounced(ps)..] == ps;
    } else {
      AnnouncedEntriesStart(ps[1..], packages);
      assert ps[FirstAnnounced(ps)..] == ps[1..][FirstAnnounced(ps[1..])..];
    }
  }

  lemma ShowsAnnouncedIff(out: seq<ParticipationPublic>, ps: seq<Participation>, packages: Packages)
    requires Shows(out, ps, None, packages)
    ensures out == AnnouncedEntries(ps, packages) <==> forall j :: 0 <= j < |ps| ==> ps[j].status == Announced
  {
    AnnouncedEntriesCount(ps, packages);
    if forall j :: 0 <= j < |ps| ==> ps[j].status == Announced {
      forall k | 0 <= k < |ps|
        ensures out[k] == AnnouncedEntries(ps, packages)[k]
      {
        AnnouncedEntriesAt(ps, packages, k);
        assert Carried(ps, k, None) == Some(ps[k]);
      }
    }
  }

  /** The documented result comes out exactly when no participation after the first announced one
      is unannounced. */
  lemma OnlyAnnouncedIff(ps: seq<Participation>, packages: Packages)
    ensures PublicFrom(ps, None, None, packages) == Some(AnnouncedEntries(ps, packages)) <==>
            forall j :: FirstAnnounced(ps) <= j < |ps| ==> ps[j].status == Announced
  {
    var i := FirstAnnounced(ps);
    PublicWithoutEvent(ps, packages);
    AnnouncedEntriesStart(ps, packages);
    ShowsAnnouncedIff(PublicFrom(ps, None, None, packages).value, ps[i..], packages);
    AllFromIff(ps, i);
  }

  lemma AllFromIff(ps: seq<Participation>, i: nat)
    requires i <= |ps|
    ensures (forall j :: 0 <= j < |ps[i..]| ==> ps[i..][j].status == Announced)
            <==> forall j :: i <= j < |ps| ==> ps[j].status == Announced
  {
    assert forall j :: i <= j < |ps| ==> ps[j] == ps[i..][j - i];
  }

  // ---- a company whose view is not the documented one ----

  function AnnouncedThenSuggested(): seq<Participation> {
    [NewParticipation(30, 1, true).(status := Announced), NewParticipation(31, 1, false)]
  }

  /** Announced on event 30 and suggested on event 31: both are listed, with the details of the
      first, whether the view is for event 30 or for no event. */
  lemma SuggestedIsListedToo()
    ensures var ps := AnnouncedThenSuggested();
            var listed := [PublicEntry(30, ps[0], map[]), PublicEntry(31, ps[0], map[])];
            && PublicFrom(ps, None, Some(30), map[]) == Some(listed) && listed != [PublicEntry(30, ps[0], map[])]
            && PublicFrom(ps, None, None, map[]) == Some(listed) && listed != AnnouncedEntries(ps, map[])
  {
    var ps := AnnouncedThenSuggested();
    var first, second := PublicEntry(30, ps[0], map[]), PublicEntry(31, ps[0], map[]);
    assert ps[1..] == [ps[1]] && ps[1..][1..] == [];
    assert PublicFrom(ps[1..], Some(ps[0]), Some(30), map[]) == Some([second] + []);
    assert PublicFrom(ps[1..], Some(ps[0]), None, map[]) == Some([second] + []);
    assert [second] + [] == [second] && [first] + [second] == [first, second];
    assert AnnouncedEntries(ps[1..], map[]) == [];
    assert [first] + [] == [first] && |[first, second]| == 2;
  }
}
