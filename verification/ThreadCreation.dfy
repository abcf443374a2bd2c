/**
  The handler that creates a thread for a company, addCompanyThread of router/company.go: a post,
  the optional meeting, the thread and the reference to it, with cleanup when a later one fails.
*/
module ThreadCreation {
  import opened Wrappers
  import opened Companies
  import CompanyStore
  import opened Threads

  datatype Request = Request(company: Id, member: Id, text: string, kind: ThreadKind, meeting: Option<MeetingData>)

  /** The choices of the environment: whether the company can be read, how each insert ends and
      whether the attachment reaches the database. Deletes of documents that exist succeed. */
  datatype Faults = Faults(read: bool, post: Insert, meeting: Insert, thread: Insert, attach: bool)

  const NO_FAULTS := Faults(true, Inserted, Inserted, Inserted, true)

  /** `Crashed` stands for a call that ends without an answer: the handler panics, or the process
      exits. No cleanup runs then. */
  datatype Response = Created(post: Id, meeting: Option<Id>, thread: Id) | Failed | Crashed

  // ---- the call ----

  function AddSpec(d: Db, event: int, rq: Request, f: Faults): (Db, Response) {
    if !f.read || CompanyStore.FindCompany(d.companies, rq.company) == |d.companies| then (d, Failed)
    else if rq.kind.MeetingKind? && rq.meeting.None? then (d, Failed)
    else
      var (d1, post) := CreatePostStep(d, Post(rq.member, rq.text), f.post);
      if post.None? then (d1, Failed) else WithPost(d1, event, rq, f, post.value)
  }

  function WithPost(d: Db, event: int, rq: Request, f: Faults, post: Id): (Db, Response)
    requires rq.kind.MeetingKind? ==> rq.meeting.Some?
  {
    if !rq.kind.MeetingKind? then WithMeeting(d, event, rq, f, post, None)
    else match Validate(rq.meeting.value)
         case Panics => (d, Crashed)
         case Invalid => (DeletePostStep(d, post), Failed)
         case Valid =>
           var (d1, meeting) := CreateMeetingStep(d, rq.meeting.value, f.meeting);
           if f.meeting.InsertFails? then (d1, Crashed)
           else if meeting.None? then (DeletePostStep(d1, post), Failed)
           else WithMeeting(d1, event, rq, f, post, meeting)
  }

  function CleanUp(d: Db, post: Id, meeting: Option<Id>): Db {
    if meeting.Some? then DeleteMeetingStep(DeletePostStep(d, post), meeting.value) else DeletePostStep(d, post)
  }

  function WithMeeting(d: Db, event: int, rq: Request, f: Faults, post: Id, meeting: Option<Id>): (Db, Response) {
    var (d1, thread) := CreateThreadStep(d, Thread(post, meeting, [], rq.kind, None), f.thread);
    if thread.None? then (CleanUp(d1, post, meeting), Failed)
    else
      var attached := AttachStep(d1, rq.company, event, thread.value, f.attach);
      if attached.Some? then (attached.value, Created(post, meeting, thread.value))
      else (DeleteThreadStep(CleanUp(d1, post, meeting), thread.value), Failed)
  }

  // ---- all or nothing ----

  /** The call gets as far as the post. */
  predicate Accepted(cs: seq<Company>, rq: Request, f: Faults) {
    && f.read && CompanyStore.FindCompany(cs, rq.company) < |cs|
    && (rq.kind.MeetingKind? ==> rq.meeting.Some?)
  }

  predicate MeetingIs(rq: Request, v: Validation) {
    rq.kind.MeetingKind? && rq.meeting.Some? && Validate(rq.meeting.value) == v
  }

  /** The call gets past the meeting. */
  predicate PastMeeting(cs: seq<Company>, rq: Request, f: Faults) {
    Accepted(cs, rq, f) && f.post.Inserted? && (rq.kind.MeetingKind? ==> MeetingIs(rq, Valid) && f.meeting.Inserted?)
  }

  predicate Succeeds(cs: seq<Company>, event: int, rq: Request, f: Faults) {
    PastMeeting(cs, rq, f) && f.thread.Inserted? && f.attach && Attachable(cs, rq.company, event)
  }

  /** The meeting has no kind although everything checked before it is fine, or its insert fails. */
  predicate Crashes(cs: seq<Company>, rq: Request, f: Faults) {
    Accepted(cs, rq, f) && f.post.Inserted? && (MeetingIs(rq, Panics) || (MeetingIs(rq, Valid) && f.meeting.InsertFails?))
  }

  /** Some inserted document could not be read back, or the call ended before its cleanup. */
  predicate LeavesResidue(cs: seq<Company>, rq: Request, f: Faults) {
    || Crashes(cs, rq, f)
    || (Accepted(cs, rq, f) && f.post.ReadBackFails?)
    || (Accepted(cs, rq, f) && f.post.Inserted? && MeetingIs(rq, Valid) && f.meeting.ReadBackFails?)
    || (PastMeeting(cs, rq, f) && f.thread.ReadBackFails?)
  }

  ghost predicate SameDocuments(d: Db, d': Db) {
    d' == d.(nextId := d'.nextId)
  }

  /** One post, one thread about it, the optional meeting and one reference are new. */
  ghost predicate Added(d: Db, d': Db, event: int, rq: Request, r: Response)
    requires r.Created?
  {
    && r.post !in d.posts && d'.posts == d.posts[r.post := Post(rq.member, rq.text)]
    && r.thread !in d.threads && d'.threads == d.threads[r.thread := Thread(r.post, r.meeting, [], rq.kind, None)]
    && (r.meeting.Some? <==> rq.kind.MeetingKind?)
    && (r.meeting.None? ==> d'.meetings == d.meetings)
    && (r.meeting.Some? ==> rq.meeting.Some? && r.meeting.value !in d.meetings
                            && d'.meetings == d.meetings[r.meeting.value := rq.meeting.value])
    && Appended(d.companies, d'.companies, rq.company, event, [r.thread])
    && d'.speakers == d.speakers
  }

  /** What a call that does not succeed leaves behind. */
  ghost predicate Residue(d: Db, d': Db, rq: Request, f: Faults) {
    && d'.companies == d.companies && d'.speakers == d.speakers
    && d'.posts == (if Accepted(d.companies, rq, f) && (f.post.ReadBackFails? || Crashes(d.companies, rq, f))
                    then d.posts[d.nextId := Post(rq.member, rq.text)] else d.posts)
    && (d'.meetings != d.meetings <==> Accepted(d.companies, rq, f) && f.post.Inserted? && MeetingIs(rq, Valid) && f.meeting.ReadBackFails?)
    && (d'.threads != d.threads <==> PastMeeting(d.companies, rq, f) && f.thread.ReadBackFails?)
  }

  ghost predicate AllOrNothing(d: Db, d': Db, event: int, rq: Request, f: Faults, r: Response) {
    && (r.Created? <==> Succeeds(d.companies, event, rq, f))
    && (r.Crashed? <==> Crashes(d.companies, rq, f))
    && (r.Created? ==> Added(d, d', event, rq, r))
    && (!r.Created? ==> Residue(d, d', rq, f))
    && (!r.Created? ==> (SameDocuments(d, d') <==> !LeavesResidue(d.companies, rq, f)))
  }

  lemma CleanUpUndoes(d: Db, post: Id, p: Post, meeting: Option<Id>, data: MeetingData)
    requires post !in d.posts && (meeting.Some? ==> meeting.value !in d.meetings)
    ensures CleanUp(d.(posts := d.posts[post := p],
                       meetings := if meeting.Some? then d.meetings[meeting.value := data] else d.meetings), post, meeting) == d
  {
    RemoveUndoesAdd(d.posts, post, p);
    if meeting.Some? {
      RemoveUndoesAdd(d.meetings, meeting.value, data);
    }
  }

  /** From the thread on, `before` being the documents without the post and the meeting. */
  lemma WithMeetingIsAllOrNothing(before: Db, d: Db, event: int, rq: Request, f: Faults, post: Id, meeting: Option<Id>, data: MeetingData)
    requires FreshIds(d) && post !in before.posts && (meeting.Some? ==> meeting.value !in before.meetings)
    requires d == before.(posts := before.posts[post := Post(rq.member, rq.text)],
                          meetings := if meeting.Some? then before.meetings[meeting.value := data] else before.meetings)
    ensures var (d', r) := WithMeeting(d, event, rq, f, post, meeting);
            && r == (if f.thread.Inserted? && f.attach && Attachable(d.companies, rq.company, event)
                     then Created(post, meeting, d.nextId) else Failed)
            && (r.Created? ==>
                  d' == d.(threads := d.threads[d.nextId := Thread(post, meeting, [], rq.kind, None)], nextId := d'.nextId, companies := d'.companies)
                  && Appended(d.companies, d'.companies, rq.company, event, [r.thread]))
            && (r.Failed? ==>
                  d' == before.(nextId := d'.nextId,
                                threads := if f.thread.ReadBackFails? then before.threads[d.nextId := Thread(post, meeting, [], rq.kind, None)]
                                           else before.threads))
  {
    var thread := Thread(post, meeting, [], rq.kind, None);
    var d1 := before.(nextId := d.nextId + 1);
    CleanUpUndoes(before, post, Post(rq.member, rq.text), meeting, data);
    CleanUpUndoes(d1, post, Post(rq.member, rq.text), meeting, data);
    CleanUpUndoes(d1.(threads := d1.threads[d.nextId := thread]), post, Post(rq.member, rq.text), meeting, data);
    DeleteNewThread(d1, post, Post(rq.member, rq.text), d.nextId, thread);
    AttachAppends(CreateThreadStep(d, thread, f.thread).0, rq.company, event, d.nextId, f.attach);
  }

  /** From the meeting on, `d` being the documents before the post. */
  lemma WithPostIsAllOrNothing(d: Db, event: int, rq: Request, f: Faults)
    requires FreshIds(d) && Accepted(d.companies, rq, f) && f.post.Inserted?
    ensures var d1 := CreatePostStep(d, Post(rq.member, rq.text), f.post).0;
            var (d', r) := WithPost(d1, event, rq, f, d.nextId);
            AllOrNothing(d, d', event, rq, f, r)
  {
    var post := Post(rq.member, rq.text);
    var d1 := CreatePostStep(d, post, f.post).0;
    RemoveUndoesAdd(d.posts, d.nextId, post);
    if !rq.kind.MeetingKind? {
      WithMeetingIsAllOrNothing(d.(nextId := d1.nextId), d1, event, rq, f, d.nextId, None, NO_MEETING);
      ThreadAdded(d, d1, rq, d.nextId, None);
    } else if f.meeting.Inserted? && Validate(rq.meeting.value) == Valid {
      MeetingMade(d, event, rq, f);
    } else {
      MeetingNotMade(d, event, rq, f);
    }
  }

  lemma MeetingNotMade(d: Db, event: int, rq: Request, f: Faults)
    requires FreshIds(d) && Accepted(d.companies, rq, f) && f.post.Inserted? && rq.kind.MeetingKind?
    requires !(f.meeting.Inserted? && Validate(rq.meeting.value) == Valid)
    ensures var d1 := CreatePostStep(d, Post(rq.member, rq.text), f.post).0;
            var (d', r) := WithPost(d1, event, rq, f, d.nextId);
            AllOrNothing(d, d', event, rq, f, r)
  {
    RemoveUndoesAdd(d.posts, d.nextId, Post(rq.member, rq.text));
    RemoveUndoesAdd(d.meetings, d.nextId + 1, rq.meeting.value);
  }

  lemma MeetingMade(d: Db, event: int, rq: Request, f: Faults)
    requires FreshIds(d) && Accepted(d.companies, rq, f) && f.post.Inserted?
    requires MeetingIs(rq, Valid) && f.meeting.Inserted?
    ensures var d1 := CreatePostStep(d, Post(rq.member, rq.text), f.post).0;
            var (d', r) := WithPost(d1, event, rq, f, d.nextId);
            AllOrNothing(d, d', event, rq, f, r)
  {
    var post, data := Post(rq.member, rq.text), rq.meeting.value;
    var d1 := CreatePostStep(d, post, f.post).0;
    var d2 := CreateMeetingStep(d1, data, f.meeting).0;
    WithMeetingIsAllOrNothing(d.(nextId := d2.nextId), d2, event, rq, f, d.nextId, Some(d1.nextId), data);
    ThreadAdded(d, d2, rq, d.nextId, Some(d1.nextId));
  }

  lemma ThreadAdded(d: Db, d1: Db, rq: Request, post: Id, meeting: Option<Id>)
    requires FreshIds(d1) && d1.threads == d.threads
    ensures d.threads[d1.nextId := Thread(post, meeting, [], rq.kind, None)] != d.threads
    ensures d1.nextId !in d.threads
  {
    RemoveUndoesAdd(d.threads, d1.nextId, Thread(post, meeting, [], rq.kind, None));
  }

  /** Thread creation is all or nothing: it succeeds exactly when nothing fails, and otherwise leaves
      the documents as they were exactly when no insert succeeded without its document being
      readable and the call did not end before its cleanup. */
  lemma CreationIsAllOrNothing(d: Db, event: int, rq: Request, f: Faults)
    requires FreshIds(d)
    ensures var (d', r) := AddSpec(d, event, rq, f); AllOrNothing(d, d', event, rq, f, r)
  {
    if Accepted(d.companies, rq, f) {
      RemoveUndoesAdd(d.posts, d.nextId, Post(rq.member, rq.text));
      if f.post.Inserted? {
        WithPostIsAllOrNothing(d, event, rq, f);
      }
    }
  }

  lemma WithMeetingKeepsFreshIds(d: Db, event: int, rq: Request, f: Faults, post: Id, meeting: Option<Id>)
    requires FreshIds(d)
    ensures FreshIds(WithMeeting(d, event, rq, f, post, meeting).0)
  {
    var thread := Thread(post, meeting, [], rq.kind, None);
    CreatesKeepFreshIds(d, Post(0, ""), NO_MEETING, thread, f.thread);
    var d1 := CreateThreadStep(d, thread, f.thread).0;
    DeletesKeepFreshIds(CleanUp(d1, post, meeting), d.nextId);
    if f.thread.Inserted? {
      AttachKeepsFreshIds(d1, rq.company, event, d.nextId, f.attach);
    }
  }

  lemma WithPostKeepsFreshIds(d: Db, event: int, rq: Request, f: Faults, post: Id)
    requires FreshIds(d) && (rq.kind.MeetingKind? ==> rq.meeting.Some?)
    ensures FreshIds(WithPost(d, event, rq, f, post).0)
  {
    if !rq.kind.MeetingKind? {
      WithMeetingKeepsFreshIds(d, event, rq, f, post, None);
    } else {
      DeletesKeepFreshIds(d, post);
      AfterMeetingKeepsFreshIds(d, event, rq, f, post);
    }
  }

  lemma AfterMeetingKeepsFreshIds(d: Db, event: int, rq: Request, f: Faults, post: Id)
    requires FreshIds(d) && rq.meeting.Some?
    ensures var (d1, meeting) := CreateMeetingStep(d, rq.meeting.value, f.meeting);
            FreshIds(d1) && FreshIds(DeletePostStep(d1, post)) && FreshIds(WithMeeting(d1, event, rq, f, post, meeting).0)
  {
    var (d1, meeting) := CreateMeetingStep(d, rq.meeting.value, f.meeting);
    CreatesKeepFreshIds(d, Post(0, ""), rq.meeting.value, Thread(0, None, [], To, None), f.meeting);
    DeletesKeepFreshIds(d1, post);
    WithMeetingKeepsFreshIds(d1, event, rq, f, post, meeting);
  }

  /** No document that is left gets an id that is given out again. */
  lemma CreationKeepsFreshIds(d: Db, event: int, rq: Request, f: Faults)
    requires FreshIds(d)
    ensures FreshIds(AddSpec(d, event, rq, f).0)
  {
    var post := Post(rq.member, rq.text);
    CreatesKeepFreshIds(d, post, NO_MEETING, Thread(0, None, [], To, None), f.post);
    if rq.kind.MeetingKind? ==> rq.meeting.Some? {
      WithPostKeepsFreshIds(CreatePostStep(d, post, f.post).0, event, rq, f, d.nextId);
    }
  }

  // ---- two calls that leave their post behind ----

  function Meeting(kind: Option<string>): MeetingData {
    MeetingData(Some("Kick-off"), kind, Some(9), Some(10), Some("Room 1"))
  }

  /** A meeting whose kind is absent, although nothing fails. */
  lemma KindlessMeetingLeavesThePost(d: Db, event: int, company: Id, member: Id, text: string)
    requires FreshIds(d) && CompanyStore.FindCompany(d.companies, company) < |d.companies|
    ensures var (d', r) := AddSpec(d, event, Request(company, member, text, MeetingKind, Some(Meeting(None))), NO_FAULTS);
            && r == Crashed && d.nextId !in d.posts
            && d' == d.(posts := d.posts[d.nextId := Post(member, text)], nextId := d.nextId + 1)
  {
  }

  /** A valid meeting whose insert fails, although everything else works. */
  lemma FailedMeetingInsertLeavesThePost(d: Db, event: int, company: Id, member: Id, text: string)
    requires FreshIds(d) && CompanyStore.FindCompany(d.companies, company) < |d.companies|
    ensures var rq := Request(company, member, text, MeetingKind, Some(Meeting(Some("COMPANY"))));
            var (d', r) := AddSpec(d, event, rq, NO_FAULTS.(meeting := InsertFails));
            && r == Crashed && d.nextId !in d.posts
            && d' == d.(posts := d.posts[d.nextId := Post(member, text)], nextId := d.nextId + 1)
  {
  }

  // ---- the handler ----

  method DeletePostAndMeeting(db: Database, post: Id, meeting: Option<Id>)
    modifies db
    ensures db.View() == CleanUp(old(db.View()), post, meeting)
  {
    var gone := db.DeletePost(post);
    if meeting.Some? {
      gone := db.DeleteMeeting(meeting.value);
    }
  }

  method AddCompanyThread(db: Database, rq: Request, f: Faults) returns (r: Response)
    modifies db
    ensures (db.View(), r) == AddSpec(old(db.View()), db.event, rq, f)
    ensures FreshIds(old(db.View())) ==> FreshIds(db.View()) && AllOrNothing(old(db.View()), db.View(), db.event, rq, f, r)
  {
    if FreshIds(db.View()) {
      CreationIsAllOrNothing(db.View(), db.event, rq, f);
      CreationKeepsFreshIds(db.View(), db.event, rq, f);
    }
    if !f.read || CompanyStore.FindCompany(db.companies, rq.company) == |db.companies| {
      return Failed;
    }
    if rq.kind.MeetingKind? && rq.meeting.None? {
      return Failed;
    }
    r := CreateAll(db, rq, f);
  }

  /** The handler once the company is found and the body is parsed. */
  method CreateAll(db: Database, rq: Request, f: Faults) returns (r: Response)
    requires rq.kind.MeetingKind? ==> rq.meeting.Some?
    modifies db
    ensures var (d1, post) := CreatePostStep(old(db.View()), Post(rq.member, rq.text), f.post);
            (db.View(), r) == if post.None? then (d1, Failed) else WithPost(d1, db.event, rq, f, post.value)
  {
    var post := db.CreatePost(Post(rq.member, rq.text), f.post);
    if post.None? {
      return Failed;
    }
    var meeting: Option<Id> := None;
    if rq.kind.MeetingKind? {
      var v := Validate(rq.meeting.value);
      if v == Panics {
        return Crashed;
      }
      if v == Invalid {
        var gone := db.DeletePost(post.value);
        return Failed;
      }
      var alive;
      meeting, alive := db.CreateMeeting(rq.meeting.value, f.meeting);
      if !alive {
        return Crashed;
      }
      if meeting.None? {
        var gone := db.DeletePost(post.value);
        return Failed;
      }
    }
    r := CreateAndAttach(db, rq, f, post.value, meeting);
  }

  method CreateAndAttach(db: Database, rq: Request, f: Faults, post: Id, meeting: Option<Id>) returns (r: Response)
    modifies db
    ensures (db.View(), r) == WithMeeting(old(db.View()), db.event, rq, f, post, meeting)
  {
    var thread := db.CreateThread(Thread(post, meeting, [], rq.kind, None), f.thread);
    if thread.None? {
      DeletePostAndMeeting(db, post, meeting);
      return Failed;
    }
    var ok := db.AddThread(rq.company, thread.value, f.attach);
    if !ok {
      DeletePostAndMeeting(db, post, meeting);
      var gone := db.DeleteThread(thread.value);
      return Failed;
    }
    r := Created(post, meeting, thread.value);
  }
}
