/**
  The collections that communication threads span: mongodb/thread.go, mongodb/post.go,
  mongodb/meeting.go and the attachment of mongodb/company.go. Collections are maps from id to
  document, inserts take ids that were never used, and every access to one document is atomic.
  `Db` is the value of all of them; the class performs the accesses.
*/
module Threads {
  import opened Wrappers
  import opened Companies
  import CompanyStore

  const THREAD_KIND_TEXTS: set<string> := {"TEMPLATE", "TO", "FROM", "PHONE_CALL", "MEETING"}

  type OtherKind = t: string | t !in THREAD_KIND_TEXTS

  /** The request may carry any text as a kind. */
  datatype ThreadKind = Template | To | From | PhoneCall | MeetingKind | Other(text: OtherKind)

  datatype Post = Post(member: Id, text: string)

  datatype MeetingData = MeetingData(
    title: Option<string>, kind: Option<string>, begin: Option<int>, end: Option<int>, place: Option<string>)

  const NO_MEETING := MeetingData(None, None, None, None, None)

  datatype Thread = Thread(
    entry: Id, meeting: Option<Id>, comments: seq<Id>, kind: ThreadKind, gmailMessageId: Option<string>)

  /** Validation dereferences the kind without looking whether there is one. */
  datatype Validation = Valid | Invalid | Panics

  function Validate(m: MeetingData): Validation {
    if m.begin.None? || m.end.None? || m.end.value < m.begin.value || m.place.None? || m.title.None? then Invalid
    else if m.kind.None? then Panics
    else if m.kind.value in ["EVENT", "TEAM", "COMPANY"] then Valid
    else Invalid
  }

  ghost predicate HasAllButKind(m: MeetingData) {
    m.title.Some? && m.place.Some? && m.begin.Some? && m.end.Some? && m.begin.value <= m.end.value
  }

  /** A meeting is valid with a title, a place, a begin no later than its end and one of three kinds;
      a missing kind is only noticed when all the rest is there. */
  lemma ValidationIs(m: MeetingData)
    ensures Validate(m) == Valid <==> HasAllButKind(m) && (m.kind == Some("EVENT") || m.kind == Some("TEAM") || m.kind == Some("COMPANY"))
    ensures Validate(m) == Panics <==> HasAllButKind(m) && m.kind.None?
  {
  }

  /** `speakers` are the communications of every participation of every speaker. */
  datatype Db = Db(
    posts: map<Id, Post>,
    meetings: map<Id, MeetingData>,
    threads: map<Id, Thread>,
    companies: seq<Company>,
    speakers: seq<seq<Id>>,
    nextId: Id)

  /** No document has an id that is still to be given out. */
  ghost predicate FreshIds(d: Db) {
    && (forall i :: i in d.posts ==> i < d.nextId)
    && (forall i :: i in d.meetings ==> i < d.nextId)
    && (forall i :: i in d.threads ==> i < d.nextId)
    && (forall i :: 0 <= i < |d.speakers| ==> forall t :: t in d.speakers[i] ==> t < d.nextId)
    && OldReferences(d.companies, d.nextId)
  }

  /** No company refers to a thread from the given id on. */
  ghost predicate OldReferences(cs: seq<Company>, next: Id) {
    forall i :: 0 <= i < |cs| ==> OldReferencesIn(cs[i].participations, next)
  }

  ghost predicate OldReferencesIn(ps: seq<Participation>, next: Id) {
    forall k :: 0 <= k < |ps| ==> forall t :: t in ps[k].communications ==> t < next
  }

  // ---- what each access does to the value ----

  function CreatePostStep(d: Db, post: Post, how: Insert): (Db, Option<Id>) {
    if how.InsertFails? then (d, None)
    else (d.(posts := d.posts[d.nextId := post], nextId := d.nextId + 1), if how.Inserted? then Some(d.nextId) else None)
  }

  /** A meeting insert that fails ends the process, so the answer is for the other two cases. */
  function CreateMeetingStep(d: Db, data: MeetingData, how: Insert): (Db, Option<Id>) {
    if how.InsertFails? then (d, None)
    else (d.(meetings := d.meetings[d.nextId := data], nextId := d.nextId + 1), if how.Inserted? then Some(d.nextId) else None)
  }

  function CreateThreadStep(d: Db, thread: Thread, how: Insert): (Db, Option<Id>) {
    if how.InsertFails? then (d, None)
    else (d.(threads := d.threads[d.nextId := thread], nextId := d.nextId + 1), if how.Inserted? then Some(d.nextId) else None)
  }

  function DeletePostStep(d: Db, id: Id): Db {
    d.(posts := d.posts - {id})
  }

  function DeleteMeetingStep(d: Db, id: Id): Db {
    d.(meetings := d.meetings - {id})
  }

  function PullAll(ss: seq<seq<Id>>, x: Id): (out: seq<seq<Id>>)
    ensures |out| == |ss| && forall i :: 0 <= i < |ss| ==> out[i] == Pull(ss[i], x)
  {
    seq(|ss|, i requires 0 <= i < |ss| => Pull(ss[i], x))
  }

  function CommentsOf(thread: Thread): set<Id> {
    set c | c in thread.comments
  }

  /** The thread, its entry and its comments go, whether or not these posts are still there, and so
      do the references of the speakers. */
  function DeleteThreadStep(d: Db, id: Id): Db {
    if id !in d.threads then d
    else
      var thread := d.threads[id];
      d.(threads := d.threads - {id}, posts := d.posts - {thread.entry} - CommentsOf(thread), speakers := PullAll(d.speakers, id))
  }

  /** Of a stored thread everything goes but the references of companies; everything else stays. */
  lemma DeleteThreadRemoves(d: Db, id: Id)
    ensures var d' := DeleteThreadStep(d, id);
            && (forall t :: t in d'.threads <==> t in d.threads && t != id)
            && (forall t :: t in d'.threads ==> d'.threads[t] == d.threads[t])
            && (forall p :: p in d'.posts <==> p in d.posts && (id in d.threads ==> p != d.threads[id].entry && p !in d.threads[id].comments))
            && (forall p :: p in d'.posts ==> d'.posts[p] == d.posts[p])
            && |d'.speakers| == |d.speakers|
            && (forall i :: 0 <= i < |d.speakers| ==> d'.speakers[i] == if id in d.threads then Pull(d.speakers[i], id) else d.speakers[i])
            && d'.meetings == d.meetings && d'.companies == d.companies && d'.nextId == d.nextId
  {
  }

  predicate Attachable(cs: seq<Company>, company: Id, event: int) {
    var i := CompanyStore.FindCompany(cs, company);
    i < |cs| && HasEvent(cs[i].participations, event)
  }

  /** None when the update does not reach the database or there is no participation on the event. */
  function AttachStep(d: Db, company: Id, event: int, thread: Id, reachable: bool): Option<Db> {
    var r := CompanyStore.EditAt(d.companies, company, event, Edit.AddThread(thread));
    if reachable && r.Some? then Some(d.(companies := r.value)) else None
  }

  // ---- what an attachment adds ----

  /** The communications of the participation on the event end with the given threads in order; every
      other field, participation and company is as it was. */
  ghost predicate Appended(cs: seq<Company>, ds: seq<Company>, company: Id, event: int, threads: seq<Id>) {
    var i := CompanyStore.FindCompany(cs, company);
    && |ds| == |cs| && i < |cs| && (forall j :: 0 <= j < |cs| && j != i ==> ds[j] == cs[j])
    && ds[i] == cs[i].(participations := ds[i].participations)
    && AppendedIn(cs[i].participations, ds[i].participations, event, threads)
  }

  ghost predicate AppendedIn(ps: seq<Participation>, qs: seq<Participation>, event: int, threads: seq<Id>) {
    var k := FindEvent(ps, event);
    && |qs| == |ps| && k < |ps| && (forall j :: 0 <= j < |ps| && j != k ==> qs[j] == ps[j])
    && qs[k] == ps[k].(communications := ps[k].communications + threads)
  }

  /** The same on the map that the participations stand for. */
  lemma AppendedByEvent(ps: seq<Participation>, qs: seq<Participation>, event: int, threads: seq<Id>)
    requires AppendedIn(ps, qs, event, threads)
    ensures event in ByEvent(ps)
    ensures var p := ByEvent(ps)[event];
            ByEvent(qs) == ByEvent(ps)[event := p.(communications := p.communications + threads)]
  {
    var k := FindEvent(ps, event);
    ByEventIsLookup(ps, event);
    assert qs == ps[k := qs[k]];
    ReplaceIsMapUpdate(ps, k, qs[k]);
  }

  /** An attachment fails exactly when it does not reach the database or the company has no
      participation on the event; a thread that is not referred to is then referred to last. */
  lemma AttachAppends(d: Db, company: Id, event: int, thread: Id, reachable: bool)
    requires OldReferences(d.companies, thread)
    ensures var r := AttachStep(d, company, event, thread, reachable);
            && (r.Some? <==> reachable && exists i: nat, k: nat :: CompanyStore.HasParticipation(d.companies, company, event, i, k))
            && (r.Some? ==> r.value == d.(companies := r.value.companies)
                            && Appended(d.companies, r.value.companies, company, event, [thread]))
  {
    CompanyStore.EditAtChangesOne(d.companies, company, event, Edit.AddThread(thread));
    var i := CompanyStore.FindCompany(d.companies, company);
    if Attachable(d.companies, company, event) {
      var k := FindEvent(d.companies[i].participations, event);
      assert thread !in d.companies[i].participations[k].communications;
    }
  }

  /** Appending twice is appending both, and leaves the participation in place. */
  lemma AppendedTwice(cs: seq<Company>, ds: seq<Company>, es: seq<Company>, company: Id, event: int, threads: seq<Id>, more: seq<Id>)
    requires Appended(cs, ds, company, event, threads) && Appended(ds, es, company, event, more)
    ensures Appended(cs, es, company, event, threads + more)
  {
    AppendedKeepsPlace(cs, ds, company, event, threads);
    var i := CompanyStore.FindCompany(cs, company);
    var k := FindEvent(cs[i].participations, event);
    var before := cs[i].participations[k].communications;
    assert before + threads + more == before + (threads + more);
  }

  lemma AppendedKeepsPlace(cs: seq<Company>, ds: seq<Company>, company: Id, event: int, threads: seq<Id>)
    requires Appended(cs, ds, company, event, threads)
    ensures CompanyStore.FindCompany(ds, company) == CompanyStore.FindCompany(cs, company)
    ensures var i := CompanyStore.FindCompany(cs, company);
            FindEvent(ds[i].participations, event) == FindEvent(cs[i].participations, event)
    ensures Attachable(cs, company, event) && Attachable(ds, company, event)
  {
    var i := CompanyStore.FindCompany(cs, company);
    assert ds[i].id == company && forall j :: 0 <= j < i ==> ds[j] == cs[j];
    assert CompanyStore.FindCompany(ds, company) == i;
    CompanyStore.SameEvents(cs[i].participations, ds[i].participations, event);
  }

  // ---- what deletes undo ----

  lemma RemoveUndoesAdd<V>(m: map<Id, V>, k: Id, v: V)
    requires k !in m
    ensures m[k := v] - {k} == m
    ensures m[k := v] != m
  {
    assert k in m[k := v];
  }

  lemma {:induction false} PullAbsent(s: seq<Id>, x: Id)
    requires x !in s
    ensures Pull(s, x) == s
  {
    if s == [] {
    } else {
      PullAbsent(s[1..], x);
    }
  }

  lemma PullAllAbsent(ss: seq<seq<Id>>, x: Id)
    requires forall i :: 0 <= i < |ss| ==> x !in ss[i]
    ensures PullAll(ss, x) == ss
  {
    forall i | 0 <= i < |ss| ensures PullAll(ss, x)[i] == ss[i] {
      PullAbsent(ss[i], x);
    }
  }

  /** Deleting a thread that nobody commented on or refers to, after its entry, which is then deleted
      a second time, gives back what was there before the two were made. */
  lemma DeleteNewThread(d: Db, post: Id, p: Post, id: Id, thread: Thread)
    requires post !in d.posts && id !in d.threads && thread.entry == post && thread.comments == []
    requires forall i :: 0 <= i < |d.speakers| ==> id !in d.speakers[i]
    ensures DeleteThreadStep(d.(threads := d.threads[id := thread]), id) == d
    ensures DeletePostStep(d.(posts := d.posts[post := p]), post) == d
  {
    PullAllAbsent(d.speakers, id);
    RemoveUndoesAdd(d.threads, id, thread);
    RemoveUndoesAdd(d.posts, post, p);
    assert CommentsOf(thread) == {};
    assert d.posts - {post} - {} == d.posts;
  }

  // ---- fresh ids stay fresh ----

  lemma CreatesKeepFreshIds(d: Db, post: Post, data: MeetingData, thread: Thread, how: Insert)
    requires FreshIds(d)
    ensures FreshIds(CreatePostStep(d, post, how).0)
    ensures FreshIds(CreateMeetingStep(d, data, how).0)
    ensures FreshIds(CreateThreadStep(d, thread, how).0)
  {
  }

  lemma DeletesKeepFreshIds(d: Db, id: Id)
    requires FreshIds(d)
    ensures FreshIds(DeletePostStep(d, id))
    ensures FreshIds(DeleteMeetingStep(d, id))
    ensures FreshIds(DeleteThreadStep(d, id))
  {
  }

  lemma AttachKeepsFreshIds(d: Db, company: Id, event: int, thread: Id, reachable: bool)
    requires FreshIds(d)
    requires thread < d.nextId
    ensures var r := AttachStep(d, company, event, thread, reachable); r.Some? ==> FreshIds(r.value)
  {
  }

  lemma DeleteBothKeepsFreshIds(d: Db, post: Id, thread: Id)
    requires FreshIds(d)
    ensures FreshIds(DeletePostStep(d, post)) && FreshIds(DeleteThreadStep(DeletePostStep(d, post), thread))
  {
    DeletesKeepFreshIds(d, post);
    DeletesKeepFreshIds(DeletePostStep(d, post), thread);
  }

  // ---- the object ----

  class Database {
    const event: int
    var posts: map<Id, Post>
    var meetings: map<Id, MeetingData>
    var threads: map<Id, Thread>
    var companies: seq<Company>
    var speakers: seq<seq<Id>>
    var nextId: Id

    ghost function View(): Db
      reads this
    {
      Db(posts, meetings, threads, companies, speakers, nextId)
    }

    constructor (event: int)
      ensures this.event == event && View() == Db(map[], map[], map[], [], [], 0)
    {
      this.event, posts, meetings, threads, companies, speakers, nextId := event, map[], map[], map[], [], [], 0;
    }

    method CreatePost(post: Post, how: Insert) returns (r: Option<Id>)
      modifies this
      ensures (View(), r) == CreatePostStep(old(View()), post, how)
    {
      if how.InsertFails? {
        return None;
      }
      posts := posts[nextId := post];
      r := if how.ReadBackFails? then None else Some(nextId);
      nextId := nextId + 1;
    }

    /** Answers false when there is no such post, which is ErrNoDocuments. */
    method DeletePost(id: Id) returns (found: bool)
      modifies this
      ensures View() == DeletePostStep(old(View()), id) && found == (id in old(posts))
    {
      found := id in posts;
      posts := posts - {id};
    }

    /** `alive` is whether the process survives the call. */
    method CreateMeeting(data: MeetingData, how: Insert) returns (r: Option<Id>, alive: bool)
      modifies this
      ensures (View(), r) == CreateMeetingStep(old(View()), data, how) && alive == !how.InsertFails?
    {
      if how.InsertFails? {
        return None, false;
      }
      meetings := meetings[nextId := data];
      r, alive := if how.ReadBackFails? then None else Some(nextId), true;
      nextId := nextId + 1;
    }

    method DeleteMeeting(id: Id) returns (found: bool)
      modifies this
      ensures View() == DeleteMeetingStep(old(View()), id) && found == (id in old(meetings))
    {
      found := id in meetings;
      meetings := meetings - {id};
    }

    method CreateThread(thread: Thread, how: Insert) returns (r: Option<Id>)
      modifies this
      ensures (View(), r) == CreateThreadStep(old(View()), thread, how)
    {
      if how.InsertFails? {
        return None;
      }
      threads := threads[nextId := thread];
      r := if how.ReadBackFails? then None else Some(nextId);
      nextId := nextId + 1;
    }

    method DeleteThread(id: Id) returns (found: bool)
      modifies this
      ensures View() == DeleteThreadStep(old(View()), id) && found == (id in old(threads))
    {
      if id !in threads {
        return false;
      }
      var thread := threads[id];
      threads := threads - {id};
      var gone := DeletePost(thread.entry);
      var i := 0;
      while i < |thread.comments|
        invariant i <= |thread.comments|
        invariant View() == old(View()).(threads := old(threads) - {id}, posts := posts)
        invariant posts == old(posts) - {thread.entry} - (set c | c in thread.comments[..i])
      {
        gone := DeletePost(thread.comments[i]);
        assert thread.comments[..i + 1] == thread.comments[..i] + [thread.comments[i]];
        i := i + 1;
      }
      assert thread.comments[..i] == thread.comments;
      speakers := PullAll(speakers, id);
      found := true;
    }

    /** Companies.AddThread */
    method AddThread(company: Id, thread: Id, reachable: bool) returns (ok: bool)
      modifies this
      ensures var r := AttachStep(old(View()), company, event, thread, reachable);
              ok == r.Some? && View() == if ok then r.value else old(View())
      ensures OldReferences(old(companies), thread) && ok
              ==> View() == old(View()).(companies := companies) && Appended(old(companies), companies, company, event, [thread])
    {
      if OldReferences(companies, thread) {
        AttachAppends(View(), company, event, thread, reachable);
      }
      var r := CompanyStore.EditAt(companies, company, event, Edit.AddThread(thread));
      ok := reachable && r.Some?;
      if ok {
        companies := r.value;
      }
    }
  }
}
