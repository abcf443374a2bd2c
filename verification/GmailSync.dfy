/**
  The handler that turns Gmail messages into threads of a company, syncCompanyGmailMessages of
  router/company.go, over the lookup of mongodb/thread.go.
*/
module GmailSync {
  import opened Wrappers
  import opened Companies
  import CompanyStore
  import opened Threads

  datatype GmailMessage = GmailMessage(messageId: string, subject: string, body: string, outgoing: bool)

  datatype SyncFaults = SyncFaults(post: Insert, thread: Insert, attach: bool)

  const NO_FAULT := SyncFaults(Inserted, Inserted, true)

  /** Who syncs into which participation. */
  datatype Target = Target(company: Id, member: Id, event: int)

  function GmailText(m: GmailMessage): string {
    if m.subject != "" && m.subject != "(No subject)" then "\U{1F4E7} " + m.subject + "\n\n" + m.body else m.body
  }

  /** The stored message id: an empty one is not stored. */
  function StoredId(m: GmailMessage): Option<string> {
    if m.messageId == "" then None else Some(m.messageId)
  }

  function KindOf(m: GmailMessage): ThreadKind {
    if m.outgoing then To else From
  }

  // ---- one message ----

  /** The documents afterwards, whether the message was attached, and the thread document that was
      left behind. */
  datatype One = One(d: Db, attached: bool, made: Option<Id>)

  function SyncOneSpec(d: Db, to: Target, m: GmailMessage, f: SyncFaults): One {
    var (d1, post) := CreatePostStep(d, Post(to.member, GmailText(m)), f.post);
    if post.None? then One(d1, false, None) else SyncWithPost(d1, to, m, f, post.value)
  }

  function MessageThread(m: GmailMessage, post: Id): Thread {
    Thread(post, None, [], KindOf(m), StoredId(m))
  }

  function SyncWithPost(d: Db, to: Target, m: GmailMessage, f: SyncFaults, post: Id): One {
    var (d1, thread) := CreateThreadStep(d, MessageThread(m, post), f.thread);
    if thread.None? then One(DeletePostStep(d1, post), false, if f.thread.ReadBackFails? then Some(d.nextId) else None)
    else
      var r := AttachStep(d1, to.company, to.event, thread.value, f.attach);
      if r.None? then One(DeleteThreadStep(DeletePostStep(d1, post), thread.value), false, None)
      else One(r.value, true, thread)
  }

  ghost predicate ReadBacksWork(f: SyncFaults) {
    !f.post.ReadBackFails? && !f.thread.ReadBackFails?
  }

  /** Every old post and thread is still there, unchanged. */
  ghost predicate Kept(d: Db, d': Db) {
    && (forall p :: p in d.posts ==> p in d'.posts && d'.posts[p] == d.posts[p])
    && (forall t :: t in d.threads ==> t in d'.threads && d'.threads[t] == d.threads[t])
  }

  /** The thread is about the message: without a meeting or comments, sent or received, and with the
      message id unless that is empty. */
  ghost predicate AboutMessage(thread: Thread, m: GmailMessage) {
    && thread.meeting.None? && thread.comments == []
    && (m.outgoing ==> thread.kind == To) && (!m.outgoing ==> thread.kind == From)
    && (m.messageId == "" ==> thread.gmailMessageId.None?)
    && (m.messageId != "" ==> thread.gmailMessageId == Some(m.messageId))
  }

  /** The post shows the message, with its subject if there is a real one. */
  ghost predicate ShowsMessage(post: Post, member: Id, m: GmailMessage) {
    && post.member == member
    && (m.subject in ["", "(No subject)"] ==> post.text == m.body)
    && (m.subject !in ["", "(No subject)"] ==> post.text == "\U{1F4E7} " + m.subject + "\n\n" + m.body)
  }

  ghost predicate NewThread(d: Db, d': Db, to: Target, m: GmailMessage, t: Id) {
    && t in d'.threads
    && var thread := d'.threads[t];
       && AboutMessage(thread, m)
       && thread.entry !in d.posts && thread.entry in d'.posts && ShowsMessage(d'.posts[thread.entry], to.member, m)
       && d'.posts == d.posts[thread.entry := d'.posts[thread.entry]]
       && Appended(d.companies, d'.companies, to.company, to.event, [t])
  }

  /** The effect of one message that is not yet known: a post, a thread and a reference to it, or
      no reference and, unless a read back failed, nothing at all. */
  ghost predicate OneSynced(d: Db, o: One, to: Target, m: GmailMessage, f: SyncFaults) {
    && (match o.made
        case None => o.d.threads == d.threads
        case Some(t) => t !in d.threads && t in o.d.threads && o.d.threads == d.threads[t := o.d.threads[t]]
                        && o.d.threads[t].gmailMessageId == StoredId(m))
    && Kept(d, o.d) && o.d.meetings == d.meetings && o.d.speakers == d.speakers
    && (o.attached ==> o.made.Some? && NewThread(d, o.d, to, m, o.made.value))
    && (!o.attached ==> o.d.companies == d.companies)
    && (!o.attached && ReadBacksWork(f) ==> o.made.None? && o.d.posts == d.posts)
    && (f == NO_FAULT && Attachable(d.companies, to.company, to.event) ==> o.attached)
  }

  /** A message that is not attached leaves at most a thread that could not be read back. */
  lemma SyncDetached(d: Db, to: Target, m: GmailMessage, f: SyncFaults)
    requires FreshIds(d) && f.post.Inserted?
    requires !(f.thread.Inserted? && f.attach && Attachable(d.companies, to.company, to.event))
    ensures var o := SyncOneSpec(d, to, m, f); var id := d.nextId + 1;
            && !o.attached && (o.made == if f.thread.ReadBackFails? then Some(id) else None)
            && o.d == d.(nextId := o.d.nextId,
                         threads := if f.thread.ReadBackFails? then d.threads[id := MessageThread(m, d.nextId)] else d.threads)
  {
    var post, thread, id := Post(to.member, GmailText(m)), MessageThread(m, d.nextId), d.nextId + 1;
    var d1 := d.(nextId := id + 1);
    DeleteNewThread(d1, d.nextId, post, id, thread);
    DeleteNewThread(d.(nextId := id), d.nextId, post, id, thread);
    DeleteNewThread(d1.(threads := d.threads[id := thread]), d.nextId, post, id + 1, thread);
  }

  lemma MessageIsShown(m: GmailMessage, member: Id, post: Id)
    ensures AboutMessage(MessageThread(m, post), m) && ShowsMessage(Post(member, GmailText(m)), member, m)
  {
  }

  lemma SyncAttached(d: Db, to: Target, m: GmailMessage, f: SyncFaults)
    requires FreshIds(d) && f == NO_FAULT && Attachable(d.companies, to.company, to.event)
    ensures OneSynced(d, SyncOneSpec(d, to, m, f), to, m, f)
  {
    MessageIsShown(m, to.member, d.nextId);
  }

  lemma SyncOneIsOneSynced(d: Db, to: Target, m: GmailMessage, f: SyncFaults)
    requires FreshIds(d)
    ensures OneSynced(d, SyncOneSpec(d, to, m, f), to, m, f)
  {
    if f.post.Inserted? && !(f.thread.Inserted? && f.attach && Attachable(d.companies, to.company, to.event)) {
      SyncDetached(d, to, m, f);
    } else if f.post.Inserted? {
      SyncAttached(d, to, m, f);
    }
  }

  lemma SyncWithPostKeepsFreshIds(d: Db, to: Target, m: GmailMessage, f: SyncFaults, post: Id)
    requires FreshIds(d)
    ensures FreshIds(SyncWithPost(d, to, m, f, post).d)
  {
    var thread := MessageThread(m, post);
    CreatesKeepFreshIds(d, Post(0, ""), NO_MEETING, thread, f.thread);
    var d1 := CreateThreadStep(d, thread, f.thread).0;
    if f.thread.Inserted? {
      AttachKeepsFreshIds(d1, to.company, to.event, d.nextId, f.attach);
    }
    DeleteBothKeepsFreshIds(d1, post, d.nextId);
  }

  lemma SyncOneKeepsFreshIds(d: Db, to: Target, m: GmailMessage, f: SyncFaults)
    requires FreshIds(d)
    ensures FreshIds(SyncOneSpec(d, to, m, f).d)
  {
    var post := Post(to.member, GmailText(m));
    CreatesKeepFreshIds(d, post, NO_MEETING, MessageThread(m, 0), f.post);
    if f.post.Inserted? {
      SyncWithPostKeepsFreshIds(CreatePostStep(d, post, f.post).0, to, m, f, d.nextId);
    }
  }

  // ---- the batch ----

  /** What the lookup answers when the cursor delivers the threads in `reach`: none of them when the
      query fails, a part of them when the cursor breaks or a document cannot be decoded. */
  function Found(threads: map<Id, Thread>, ms: seq<GmailMessage>, reach: set<Id>): set<string> {
    set t | t in threads && t in reach && threads[t].gmailMessageId.Some?
            && exists i :: 0 <= i < |ms| && ms[i].messageId == threads[t].gmailMessageId.value
      :: threads[t].gmailMessageId.value
  }

  /** What the loop has done so far: the attached threads in order, the positions of their messages,
      and for each thread document that was left behind the position of its message. */
  datatype Progress = Progress(d: Db, attached: seq<Id>, from: seq<nat>, origin: map<Id, nat>)

  function Advance(g: Progress, n: nat, o: One): Progress
    requires o.attached ==> o.made.Some?
  {
    Progress(o.d,
             if o.attached then g.attached + [o.made.value] else g.attached,
             if o.attached then g.from + [n] else g.from,
             if o.made.Some? then g.origin[o.made.value := n] else g.origin)
  }

  /** The loop over the first n messages. */
  function SyncUpTo(d: Db, to: Target, ms: seq<GmailMessage>, fs: seq<SyncFaults>, known: set<string>, n: nat): Progress
    requires n <= |ms| == |fs|
  {
    if n == 0 then Progress(d, [], [], map[])
    else SyncNextSpec(SyncUpTo(d, to, ms, fs, known, n - 1), to, ms, fs, known, n - 1)
  }

  /** One iteration of the loop. */
  function SyncNextSpec(g: Progress, to: Target, ms: seq<GmailMessage>, fs: seq<SyncFaults>, known: set<string>, n: nat): Progress
    requires n < |ms| == |fs|
  {
    if ms[n].messageId in known then g else Advance(g, n, SyncOneSpec(g.d, to, ms[n], fs[n]))
  }

  /** The thread holds the message: its kind, its id and, in a post of its own, its text. */
  ghost predicate HoldsMessage(d0: Db, d: Db, to: Target, m: GmailMessage, t: Id) {
    && t in d.threads && t !in d0.threads
    && var thread := d.threads[t];
       && AboutMessage(thread, m)
       && thread.entry in d.posts && thread.entry !in d0.posts && ShowsMessage(d.posts[thread.entry], to.member, m)
  }

  /** Each attached thread holds one message of the batch that was not known, in batch order. */
  ghost predicate HoldMessages(d0: Db, g: Progress, to: Target, ms: seq<GmailMessage>, known: set<string>, n: nat) {
    && n <= |ms| && |g.from| == |g.attached|
    && (forall k :: 0 <= k < |g.from| ==>
                      g.from[k] < n && ms[g.from[k]].messageId !in known && HoldsMessage(d0, g.d, to, ms[g.from[k]], g.attached[k]))
    && (forall k, l :: 0 <= k < l < |g.from| ==> g.from[k] < g.from[l] && g.attached[k] != g.attached[l])
  }

  ghost predicate AllReadBacksWork(fs: seq<SyncFaults>) {
    forall k :: 0 <= k < |fs| ==> ReadBacksWork(fs[k])
  }

  /** Every insert and attachment reaches the database and there is a participation. */
  ghost predicate NothingFails(d: Db, to: Target, fs: seq<SyncFaults>) {
    Attachable(d.companies, to.company, to.event) && forall k :: 0 <= k < |fs| ==> fs[k] == NO_FAULT
  }

  function SetOf(s: seq<Id>): set<Id> {
    set x | x in s
  }

  /** The entries of the given threads. */
  function Entries(threads: map<Id, Thread>, ts: seq<Id>): set<Id> {
    set t | t in ts && t in threads :: threads[t].entry
  }

  /** The new threads are the attached ones and the new posts are their entries, one for each. */
  ghost predicate OnlyAttached(d0: Db, d: Db, attached: seq<Id>) {
    && d.threads.Keys == d0.threads.Keys + SetOf(attached)
    && d.posts.Keys == d0.posts.Keys + Entries(d.threads, attached)
    && |d.threads| == |d0.threads| + |attached| && |d.posts| == |d0.posts| + |attached|
  }

  /** The attached threads are referred to in order, after the references that were there; all documents
      are kept and no other participation, company or speaker changed. */
  ghost predicate Accounted(d0: Db, g: Progress, to: Target) {
    && (if g.attached == [] then g.d.companies == d0.companies
        else Appended(d0.companies, g.d.companies, to.company, to.event, g.attached))
    && Kept(d0, g.d) && g.d.meetings == d0.meetings && g.d.speakers == d0.speakers
  }

  /** When nothing fails every message that was not known is attached. */
  ghost predicate NoneMissed(d0: Db, g: Progress, to: Target, ms: seq<GmailMessage>, fs: seq<SyncFaults>, known: set<string>, n: nat) {
    n <= |ms| && (NothingFails(d0, to, fs) ==> forall k :: 0 <= k < n && ms[k].messageId !in known ==> k in g.from)
  }

  // ---- one thread for each message ----

  ghost predicate Synced(threads: map<Id, Thread>, messageId: string) {
    exists t :: t in threads && threads[t].gmailMessageId == Some(messageId)
  }

  ghost predicate OneThreadPerMessage(threads: map<Id, Thread>) {
    forall t, u :: t in threads && u in threads && t != u && threads[t].gmailMessageId.Some?
                   ==> threads[t].gmailMessageId != threads[u].gmailMessageId
  }

  /** The message has an id and the lookup did not find it, so its id is going to be stored. */
  predicate Stores(ms: seq<GmailMessage>, known: set<string>, k: nat) {
    k < |ms| && ms[k].messageId != "" && ms[k].messageId !in known
  }

  /** The ids to be stored are distinct and none of them is stored already. */
  ghost predicate Storable(threads: map<Id, Thread>, ms: seq<GmailMessage>, known: set<string>) {
    && (forall i: nat, j: nat :: i < j && Stores(ms, known, i) && Stores(ms, known, j) ==> ms[i].messageId != ms[j].messageId)
    && (forall i: nat :: Stores(ms, known, i) ==> !Synced(threads, ms[i].messageId))
  }

  /** The threads that a batch left behind, each with the message it was made for. */
  ghost predicate Grew(threads0: map<Id, Thread>, g: Progress, ms: seq<GmailMessage>, known: set<string>, n: nat) {
    && n <= |ms|
    && g.d.threads.Keys == threads0.Keys + g.origin.Keys && threads0.Keys !! g.origin.Keys
    && (forall t :: t in threads0 ==> t in g.d.threads && g.d.threads[t] == threads0[t])
    && (forall t :: t in g.origin ==> t in g.d.threads && g.origin[t] < n && ms[g.origin[t]].messageId !in known
                                      && g.d.threads[t].gmailMessageId == StoredId(ms[g.origin[t]]))
    && (forall t, u :: t in g.origin && u in g.origin && t != u ==> g.origin[t] != g.origin[u])
  }

  /** Storable ids keep one thread for each message, whatever fails. */
  lemma StorableKeepsOne(threads0: map<Id, Thread>, g: Progress, ms: seq<GmailMessage>, known: set<string>)
    requires Grew(threads0, g, ms, known, |ms|)
    requires OneThreadPerMessage(threads0) && Storable(threads0, ms, known)
    ensures OneThreadPerMessage(g.d.threads)
  {
    forall t, u | t in g.d.threads && u in g.d.threads && t != u && g.d.threads[t].gmailMessageId.Some?
      ensures g.d.threads[t].gmailMessageId != g.d.threads[u].gmailMessageId
    {
      assert t in g.origin ==> Stores(ms, known, g.origin[t]);
      assert u in g.origin && g.d.threads[u].gmailMessageId.Some? ==> Stores(ms, known, g.origin[u]);
      if t in g.origin && u in g.origin {
        assert g.origin[t] < g.origin[u] || g.origin[u] < g.origin[t];
      } else {
        assert t in threads0 || u in threads0;
      }
    }
  }

  /** When every message that was not found got its thread, one thread for each message needs
      storable ids. */
  lemma OneNeedsStorable(d0: Db, g: Progress, to: Target, ms: seq<GmailMessage>, known: set<string>)
    requires Kept(d0, g.d) && HoldMessages(d0, g, to, ms, known, |ms|) && OneThreadPerMessage(g.d.threads)
    requires forall i :: 0 <= i < |ms| && ms[i].messageId !in known ==> i in g.from
    ensures OneThreadPerMessage(d0.threads) && Storable(d0.threads, ms, known)
  {
    forall i: nat, j: nat | i < j && Stores(ms, known, i) && Stores(ms, known, j)
      ensures ms[i].messageId != ms[j].messageId
    {
      var k :| 0 <= k < |g.from| && g.from[k] == i;
      var l :| 0 <= l < |g.from| && g.from[l] == j;
      assert HoldsMessage(d0, g.d, to, ms[i], g.attached[k]) && HoldsMessage(d0, g.d, to, ms[j], g.attached[l]);
      assert g.attached[k] != g.attached[l];
    }
    forall i: nat | Stores(ms, known, i)
      ensures !Synced(d0.threads, ms[i].messageId)
    {
      var k :| 0 <= k < |g.from| && g.from[k] == i;
      assert HoldsMessage(d0, g.d, to, ms[i], g.attached[k]);
      forall t | t in d0.threads
        ensures d0.threads[t].gmailMessageId != Some(ms[i].messageId)
      {
        assert t in g.d.threads && g.attached[k] != t;
      }
    }
  }

  // ---- the loop gives out fresh ids ----

  lemma {:induction false} LoopKeepsFreshIds(d: Db, to: Target, ms: seq<GmailMessage>, fs: seq<SyncFaults>, known: set<string>, n: nat)
    requires n <= |ms| == |fs| && FreshIds(d)
    ensures FreshIds(SyncUpTo(d, to, ms, fs, known, n).d)
  {
    if n == 0 {
    } else {
      LoopKeepsFreshIds(d, to, ms, fs, known, n - 1);
      SyncOneKeepsFreshIds(SyncUpTo(d, to, ms, fs, known, n - 1).d, to, ms[n - 1], fs[n - 1]);
    }
  }

  /** What one iteration does, without how. */
  ghost predicate Next(g: Progress, g': Progress, to: Target, ms: seq<GmailMessage>, fs: seq<SyncFaults>, known: set<string>, n: nat) {
    && n < |ms| == |fs|
    && if ms[n].messageId in known then g' == g
       else exists o :: OneSynced(g.d, o, to, ms[n], fs[n]) && g' == Advance(g, n, o)
  }

  lemma NextSynced(d: Db, to: Target, ms: seq<GmailMessage>, fs: seq<SyncFaults>, known: set<string>, n: nat)
    requires n < |ms| == |fs| && FreshIds(d)
    ensures Next(SyncUpTo(d, to, ms, fs, known, n), SyncUpTo(d, to, ms, fs, known, n + 1), to, ms, fs, known, n)
  {
    LoopKeepsFreshIds(d, to, ms, fs, known, n);
    var g := SyncUpTo(d, to, ms, fs, known, n);
    SyncOneIsOneSynced(g.d, to, ms[n], fs[n]);
  }

  /** The states before each iteration and after the last one. */
  ghost function States(d: Db, to: Target, ms: seq<GmailMessage>, fs: seq<SyncFaults>, known: set<string>): (gs: seq<Progress>)
    requires |ms| == |fs|
    ensures |gs| == |ms| + 1 && forall k :: 0 <= k <= |ms| ==> gs[k] == SyncUpTo(d, to, ms, fs, known, k)
  {
    seq(|ms| + 1, k requires 0 <= k <= |ms| => SyncUpTo(d, to, ms, fs, known, k))
  }

  ghost predicate Trace(d: Db, gs: seq<Progress>, to: Target, ms: seq<GmailMessage>, fs: seq<SyncFaults>, known: set<string>) {
    && |gs| == |ms| + 1 && |fs| == |ms| && gs[0] == Progress(d, [], [], map[])
    && forall k :: 0 <= k < |ms| ==> Next(gs[k], gs[k + 1], to, ms, fs, known, k)
  }

  lemma LoopIsTrace(d: Db, to: Target, ms: seq<GmailMessage>, fs: seq<SyncFaults>, known: set<string>) returns (gs: seq<Progress>)
    requires |ms| == |fs| && FreshIds(d)
    ensures Trace(d, gs, to, ms, fs, known) && gs[|ms|] == SyncUpTo(d, to, ms, fs, known, |ms|)
  {
    gs := States(d, to, ms, fs, known);
    forall k | 0 <= k < |ms|
      ensures Next(gs[k], gs[k + 1], to, ms, fs, known, k)
    {
      NextSynced(d, to, ms, fs, known, k);
    }
  }

  // ---- the loop keeps old documents and adds references ----

  lemma AccountOneMore(d0: Db, g: Progress, to: Target, m: GmailMessage, f: SyncFaults, n: nat, o: One)
    requires Accounted(d0, g, to) && OneSynced(g.d, o, to, m, f)
    ensures Accounted(d0, Advance(g, n, o), to)
  {
    if o.attached && g.attached == [] {
      assert g.attached + [o.made.value] == [o.made.value];
    } else if o.attached {
      AppendedTwice(d0.companies, g.d.companies, o.d.companies, to.company, to.event, g.attached, [o.made.value]);
    }
  }

  lemma AccountNext(d0: Db, g: Progress, g': Progress, to: Target, ms: seq<GmailMessage>, fs: seq<SyncFaults>, known: set<string>, n: nat)
    requires Next(g, g', to, ms, fs, known, n) && Accounted(d0, g, to)
    ensures Accounted(d0, g', to)
  {
    if ms[n].messageId !in known {
      var o :| OneSynced(g.d, o, to, ms[n], fs[n]) && g' == Advance(g, n, o);
      AccountOneMore(d0, g, to, ms[n], fs[n], n, o);
    }
  }

  lemma {:induction false} LoopAccounts(d: Db, gs: seq<Progress>, to: Target, ms: seq<GmailMessage>, fs: seq<SyncFaults>, known: set<string>, n: nat)
    requires n <= |ms| && Trace(d, gs, to, ms, fs, known)
    ensures Accounted(d, gs[n], to)
  {
    if n == 0 {
    } else {
      LoopAccounts(d, gs, to, ms, fs, known, n - 1);
      AccountNext(d, gs[n - 1], gs[n], to, ms, fs, known, n - 1);
    }
  }

  // ---- without failed read backs only attached threads and their posts are new ----

  lemma SetOfOneMore(s: seq<Id>, x: Id)
    ensures SetOf(s + [x]) == SetOf(s) + {x}
  {
  }

  lemma EntriesOneMore(threads: map<Id, Thread>, threads': map<Id, Thread>, ts: seq<Id>, t: Id)
    requires forall u :: u in ts ==> u in threads && u in threads' && threads'[u] == threads[u]
    requires t in threads'
    ensures Entries(threads', ts + [t]) == Entries(threads, ts) + {threads'[t].entry}
  {
    var all := ts + [t];
    assert forall u :: u in all <==> u in ts || u == t;
    assert forall u :: u in ts ==> threads[u].entry == threads'[u].entry;
  }

  lemma MapGrows<V>(m: map<Id, V>, k: Id, v: V)
    requires k !in m
    ensures m[k := v].Keys == m.Keys + {k} && |m[k := v]| == |m| + 1
  {
    assert |m[k := v].Keys| == |m.Keys + {k}|;
  }

  lemma Regroup(a: set<Id>, b: set<Id>, x: Id)
    ensures a + b + {x} == a + (b + {x})
  {
  }

  lemma OnlyAttachedStep(d0: Db, d: Db, d': Db, t: Id, attached: seq<Id>)
    requires OnlyAttached(d0, d, attached)
    requires forall u :: u in attached ==> u in d.threads && u in d'.threads && d'.threads[u] == d.threads[u]
    requires t !in d.threads && t in d'.threads
    requires d'.threads.Keys == d.threads.Keys + {t} && |d'.threads| == |d.threads| + 1
    requires d'.posts.Keys == d.posts.Keys + {d'.threads[t].entry} && |d'.posts| == |d.posts| + 1
    ensures OnlyAttached(d0, d', attached + [t])
  {
    SetOfOneMore(attached, t);
    EntriesOneMore(d.threads, d'.threads, attached, t);
    Regroup(d0.threads.Keys, SetOf(attached), t);
    Regroup(d0.posts.Keys, Entries(d.threads, attached), d'.threads[t].entry);
  }

  lemma OnlyAttachedOneMore(d0: Db, d: Db, o: One, to: Target, m: GmailMessage, f: SyncFaults, attached: seq<Id>)
    requires OnlyAttached(d0, d, attached) && OneSynced(d, o, to, m, f) && o.attached
    ensures OnlyAttached(d0, o.d, attached + [o.made.value])
  {
    var t := o.made.value;
    MapGrows(d.threads, t, o.d.threads[t]);
    MapGrows(d.posts, o.d.threads[t].entry, o.d.posts[o.d.threads[t].entry]);
    assert forall u :: u in attached ==> u in SetOf(attached);
    OnlyAttachedStep(d0, d, o.d, t, attached);
  }

  lemma OnlyAttachedAtFirst(d: Db)
    ensures OnlyAttached(d, d, [])
  {
    assert Entries(d.threads, []) == {} && SetOf([]) == {};
  }

  lemma OnlyAttachedNext(d0: Db, g: Progress, g': Progress, to: Target, ms: seq<GmailMessage>, fs: seq<SyncFaults>, known: set<string>, n: nat)
    requires Next(g, g', to, ms, fs, known, n) && AllReadBacksWork(fs) && OnlyAttached(d0, g.d, g.attached)
    ensures OnlyAttached(d0, g'.d, g'.attached)
  {
    if ms[n].messageId !in known {
      var o :| OneSynced(g.d, o, to, ms[n], fs[n]) && g' == Advance(g, n, o);
      if o.attached {
        OnlyAttachedOneMore(d0, g.d, o, to, ms[n], fs[n], g.attached);
      } else {
        assert o.d.threads == g.d.threads && o.d.posts == g.d.posts;
      }
    }
  }

  lemma {:induction false} LoopAddsOnlyAttached(d: Db, gs: seq<Progress>, to: Target, ms: seq<GmailMessage>, fs: seq<SyncFaults>, known: set<string>, n: nat)
    requires n <= |ms| && Trace(d, gs, to, ms, fs, known) && AllReadBacksWork(fs)
    ensures OnlyAttached(d, gs[n].d, gs[n].attached)
  {
    if n == 0 {
      OnlyAttachedAtFirst(d);
    } else {
      LoopAddsOnlyAttached(d, gs, to, ms, fs, known, n - 1);
      OnlyAttachedNext(d, gs[n - 1], gs[n], to, ms, fs, known, n - 1);
    }
  }

  // ---- the attached threads hold their messages ----

  /** The threads attached so far keep their messages, and the next one holds its own. */
  lemma HoldOneMore(d0: Db, g: Progress, to: Target, ms: seq<GmailMessage>, known: set<string>, n: nat, f: SyncFaults, o: One)
    requires n < |ms| && ms[n].messageId !in known && Kept(d0, g.d)
    requires HoldMessages(d0, g, to, ms, known, n) && OneSynced(g.d, o, to, ms[n], f)
    ensures HoldMessages(d0, Advance(g, n, o), to, ms, known, n + 1)
  {
  }

  lemma HoldNext(d0: Db, g: Progress, g': Progress, to: Target, ms: seq<GmailMessage>, fs: seq<SyncFaults>, known: set<string>, n: nat)
    requires Next(g, g', to, ms, fs, known, n) && Accounted(d0, g, to) && HoldMessages(d0, g, to, ms, known, n)
    ensures HoldMessages(d0, g', to, ms, known, n + 1)
  {
    if ms[n].messageId !in known {
      var o :| OneSynced(g.d, o, to, ms[n], fs[n]) && g' == Advance(g, n, o);
      HoldOneMore(d0, g, to, ms, known, n, fs[n], o);
    }
  }

  lemma {:induction false} LoopHolds(d: Db, gs: seq<Progress>, to: Target, ms: seq<GmailMessage>, fs: seq<SyncFaults>, known: set<string>, n: nat)
    requires n <= |ms| && Trace(d, gs, to, ms, fs, known)
    ensures HoldMessages(d, gs[n], to, ms, known, n)
  {
    if n == 0 {
    } else {
      LoopHolds(d, gs, to, ms, fs, known, n - 1);
      LoopAccounts(d, gs, to, ms, fs, known, n - 1);
      HoldNext(d, gs[n - 1], gs[n], to, ms, fs, known, n - 1);
    }
  }

  // ---- every thread left behind has its own message ----

  lemma GrowOneMore(threads0: map<Id, Thread>, g: Progress, to: Target, ms: seq<GmailMessage>, known: set<string>, n: nat, f: SyncFaults, o: One)
    requires n < |ms| && ms[n].messageId !in known && Grew(threads0, g, ms, known, n)
    requires OneSynced(g.d, o, to, ms[n], f)
    ensures Grew(threads0, Advance(g, n, o), ms, known, n + 1)
  {
    if o.made.Some? {
      GrowThread(threads0, g, ms, known, n, o.made.value, o.d);
    }
  }

  lemma GrowThread(threads0: map<Id, Thread>, g: Progress, ms: seq<GmailMessage>, known: set<string>, n: nat, t: Id, d: Db)
    requires n < |ms| && ms[n].messageId !in known && Grew(threads0, g, ms, known, n)
    requires t !in g.d.threads && t in d.threads && d.threads == g.d.threads[t := d.threads[t]]
    requires d.threads[t].gmailMessageId == StoredId(ms[n])
    ensures Grew(threads0, g.(d := d, origin := g.origin[t := n]), ms, known, n + 1)
  {
    assert t !in g.origin && t !in threads0;
    assert d.threads.Keys == g.d.threads.Keys + {t};
  }

  lemma GrowNext(threads0: map<Id, Thread>, g: Progress, g': Progress, to: Target, ms: seq<GmailMessage>, fs: seq<SyncFaults>, known: set<string>, n: nat)
    requires Next(g, g', to, ms, fs, known, n) && Grew(threads0, g, ms, known, n)
    ensures Grew(threads0, g', ms, known, n + 1)
  {
    if ms[n].messageId !in known {
      var o :| OneSynced(g.d, o, to, ms[n], fs[n]) && g' == Advance(g, n, o);
      GrowOneMore(threads0, g, to, ms, known, n, fs[n], o);
    }
  }

  lemma {:induction false} LoopGrows(d: Db, gs: seq<Progress>, to: Target, ms: seq<GmailMessage>, fs: seq<SyncFaults>, known: set<string>, n: nat)
    requires n <= |ms| && Trace(d, gs, to, ms, fs, known)
    ensures Grew(d.threads, gs[n], ms, known, n)
  {
    if n == 0 {
    } else {
      LoopGrows(d, gs, to, ms, fs, known, n - 1);
      GrowNext(d.threads, gs[n - 1], gs[n], to, ms, fs, known, n - 1);
    }
  }

  // ---- nothing is missed ----

  lemma NoneMissedOneMore(d0: Db, g: Progress, to: Target, ms: seq<GmailMessage>, fs: seq<SyncFaults>, known: set<string>, n: nat, o: One)
    requires n < |ms| == |fs| && NoneMissed(d0, g, to, ms, fs, known, n) && Accounted(d0, g, to)
    requires OneSynced(g.d, o, to, ms[n], fs[n])
    ensures NoneMissed(d0, Advance(g, n, o), to, ms, fs, known, n + 1)
  {
    if g.attached != [] {
      AppendedKeepsPlace(d0.companies, g.d.companies, to.company, to.event, g.attached);
    }
  }

  lemma NoneMissedNext(d0: Db, g: Progress, g': Progress, to: Target, ms: seq<GmailMessage>, fs: seq<SyncFaults>, known: set<string>, n: nat)
    requires Next(g, g', to, ms, fs, known, n) && Accounted(d0, g, to) && NoneMissed(d0, g, to, ms, fs, known, n)
    ensures NoneMissed(d0, g', to, ms, fs, known, n + 1)
  {
    if ms[n].messageId !in known {
      var o :| OneSynced(g.d, o, to, ms[n], fs[n]) && g' == Advance(g, n, o);
      NoneMissedOneMore(d0, g, to, ms, fs, known, n, o);
    }
  }

  lemma {:induction false} LoopMissesNone(d: Db, gs: seq<Progress>, to: Target, ms: seq<GmailMessage>, fs: seq<SyncFaults>, known: set<string>, n: nat)
    requires n <= |ms| && Trace(d, gs, to, ms, fs, known)
    ensures NoneMissed(d, gs[n], to, ms, fs, known, n)
  {
    if n == 0 {
    } else {
      LoopMissesNone(d, gs, to, ms, fs, known, n - 1);
      LoopAccounts(d, gs, to, ms, fs, known, n - 1);
      NoneMissedNext(d, gs[n - 1], gs[n], to, ms, fs, known, n - 1);
    }
  }

  // ---- what a batch promises ----

  /** Whatever fails, storable ids keep one thread for each message; when nothing fails only they do,
      and every message with an id has a thread afterwards. */
  ghost predicate OneThreadKept(d0: Db, g: Progress, to: Target, ms: seq<GmailMessage>, fs: seq<SyncFaults>, known: set<string>) {
    && (OneThreadPerMessage(d0.threads) && Storable(d0.threads, ms, known) ==> OneThreadPerMessage(g.d.threads))
    && (NothingFails(d0, to, fs) ==>
          (OneThreadPerMessage(g.d.threads) <==> OneThreadPerMessage(d0.threads) && Storable(d0.threads, ms, known)))
    && (NothingFails(d0, to, fs) ==>
          forall k :: 0 <= k < |ms| && ms[k].messageId != "" ==> Synced(g.d.threads, ms[k].messageId))
  }

  /** The references added and nothing old lost; each attached thread new and with a message that was
      not found, in batch order; none missed when nothing fails; nothing else left behind when the
      read backs work; one thread for each message as far as that is possible. */
  ghost predicate BatchPromise(d0: Db, g: Progress, to: Target, ms: seq<GmailMessage>, fs: seq<SyncFaults>, known: set<string>) {
    && Accounted(d0, g, to)
    && (AllReadBacksWork(fs) ==> OnlyAttached(d0, g.d, g.attached))
    && HoldMessages(d0, g, to, ms, known, |ms|)
    && NoneMissed(d0, g, to, ms, fs, known, |ms|)
    && OneThreadKept(d0, g, to, ms, fs, known)
  }

  /** Every batch keeps the promise. */
  lemma BatchKeepsPromise(d: Db, to: Target, ms: seq<GmailMessage>, fs: seq<SyncFaults>, reach: set<Id>)
    requires |ms| == |fs| && FreshIds(d)
    ensures var known := Found(d.threads, ms, reach);
            BatchPromise(d, SyncUpTo(d, to, ms, fs, known, |ms|), to, ms, fs, known)
  {
    var known := Found(d.threads, ms, reach);
    var gs := LoopIsTrace(d, to, ms, fs, known);
    LoopAccounts(d, gs, to, ms, fs, known, |ms|);
    if AllReadBacksWork(fs) {
      LoopAddsOnlyAttached(d, gs, to, ms, fs, known, |ms|);
    }
    LoopHolds(d, gs, to, ms, fs, known, |ms|);
    LoopMissesNone(d, gs, to, ms, fs, known, |ms|);
    BatchKeepsOneThread(d, to, ms, fs, reach);
  }

  lemma BatchKeepsOneThread(d: Db, to: Target, ms: seq<GmailMessage>, fs: seq<SyncFaults>, reach: set<Id>)
    requires |ms| == |fs| && FreshIds(d)
    ensures var known := Found(d.threads, ms, reach);
            OneThreadKept(d, SyncUpTo(d, to, ms, fs, known, |ms|), to, ms, fs, known)
  {
    var known := Found(d.threads, ms, reach);
    var g := SyncUpTo(d, to, ms, fs, known, |ms|);
    var gs := LoopIsTrace(d, to, ms, fs, known);
    LoopGrows(d, gs, to, ms, fs, known, |ms|);
    if OneThreadPerMessage(d.threads) && Storable(d.threads, ms, known) {
      StorableKeepsOne(d.threads, g, ms, known);
    }
    if NothingFails(d, to, fs) {
      LoopAccounts(d, gs, to, ms, fs, known, |ms|);
      LoopHolds(d, gs, to, ms, fs, known, |ms|);
      LoopMissesNone(d, gs, to, ms, fs, known, |ms|);
      if OneThreadPerMessage(g.d.threads) {
        OneNeedsStorable(d, g, to, ms, known);
      }
      forall k | 0 <= k < |ms| && ms[k].messageId != ""
        ensures Synced(g.d.threads, ms[k].messageId)
      {
        EveryMessageSynced(d, g, to, ms, known, k);
      }
    }
  }

  lemma EveryMessageSynced(d: Db, g: Progress, to: Target, ms: seq<GmailMessage>, known: set<string>, k: nat)
    requires Kept(d, g.d) && HoldMessages(d, g, to, ms, known, |ms|) && k < |ms| && ms[k].messageId != ""
    requires ms[k].messageId !in known ==> k in g.from
    requires ms[k].messageId in known ==> Synced(d.threads, ms[k].messageId)
    ensures Synced(g.d.threads, ms[k].messageId)
  {
    if k in g.from {
      var i :| 0 <= i < |g.from| && g.from[i] == k;
      assert g.d.threads[g.attached[i]].gmailMessageId == Some(ms[k].messageId);
    } else {
      var t :| t in d.threads && d.threads[t].gmailMessageId == Some(ms[k].messageId);
      assert t in g.d.threads;
    }
  }

  /** A complete lookup finds exactly the stored ids, and then only the ids that are not stored yet
      have to be distinct. */
  lemma CompleteLookup(threads: map<Id, Thread>, ms: seq<GmailMessage>, reach: set<Id>)
    requires threads.Keys <= reach
    ensures Found(threads, ms, reach) == Found(threads, ms, threads.Keys)
    ensures forall k :: 0 <= k < |ms| ==> (ms[k].messageId in Found(threads, ms, reach) <==> Synced(threads, ms[k].messageId))
    ensures Storable(threads, ms, Found(threads, ms, reach)) <==>
            forall i: nat, j: nat :: i < j < |ms| && ms[i].messageId != "" && !Synced(threads, ms[i].messageId)
                                     ==> ms[i].messageId != ms[j].messageId
  {
    var known := Found(threads, ms, reach);
    forall k | 0 <= k < |ms|
      ensures ms[k].messageId in known <==> Synced(threads, ms[k].messageId)
    {
      if t :| t in threads && threads[t].gmailMessageId == Some(ms[k].messageId) {
        assert t in reach && threads[t].gmailMessageId.value == ms[k].messageId;
      }
    }
  }

  /** A batch that was synced completely is found completely, so sending it again changes nothing. */
  lemma ResendChangesNothing(d: Db, to: Target, ms: seq<GmailMessage>, fs: seq<SyncFaults>, again: seq<SyncFaults>, reach: set<Id>)
    requires |ms| == |fs| == |again| && FreshIds(d) && NothingFails(d, to, fs)
    requires forall k :: 0 <= k < |ms| ==> ms[k].messageId != ""
    ensures var d' := SyncUpTo(d, to, ms, fs, Found(d.threads, ms, reach), |ms|).d;
            SyncUpTo(d', to, ms, again, Found(d'.threads, ms, d'.threads.Keys), |ms|) == Progress(d', [], [], map[])
  {
    var d' := SyncUpTo(d, to, ms, fs, Found(d.threads, ms, reach), |ms|).d;
    BatchKeepsOneThread(d, to, ms, fs, reach);
    CompleteLookup(d'.threads, ms, d'.threads.Keys);
    KnownBatchChangesNothing(d', to, ms, again, Found(d'.threads, ms, d'.threads.Keys), |ms|);
  }

  lemma {:induction false} KnownBatchChangesNothing(d: Db, to: Target, ms: seq<GmailMessage>, fs: seq<SyncFaults>, known: set<string>, n: nat)
    requires n <= |ms| == |fs| && forall k :: 0 <= k < n ==> ms[k].messageId in known
    ensures SyncUpTo(d, to, ms, fs, known, n) == Progress(d, [], [], map[])
  {
    if n == 0 {
    } else {
      KnownBatchChangesNothing(d, to, ms, fs, known, n - 1);
    }
  }

  // ---- two batches that store an id twice ----

  function Plain(messageId: string): GmailMessage {
    GmailMessage(messageId, "Hello", "Text", false)
  }

  /** When nothing else fails, a batch that is not storable ends with two threads for one message. */
  lemma UnstorableIsStoredTwice(d: Db, to: Target, ms: seq<GmailMessage>, fs: seq<SyncFaults>, reach: set<Id>)
    requires |ms| == |fs| && FreshIds(d) && NothingFails(d, to, fs)
    requires !Storable(d.threads, ms, Found(d.threads, ms, reach))
    ensures !OneThreadPerMessage(SyncUpTo(d, to, ms, fs, Found(d.threads, ms, reach), |ms|).d.threads)
  {
    BatchKeepsOneThread(d, to, ms, fs, reach);
  }

  /** A batch that repeats a new id. */
  lemma RepeatedIdIsStoredTwice(d: Db, to: Target, reach: set<Id>)
    requires FreshIds(d) && Attachable(d.companies, to.company, to.event) && !Synced(d.threads, "a")
    ensures var ms := [Plain("a"), Plain("a")];
            !OneThreadPerMessage(SyncUpTo(d, to, ms, [NO_FAULT, NO_FAULT], Found(d.threads, ms, reach), 2).d.threads)
  {
    var ms := [Plain("a"), Plain("a")];
    assert "a" !in Found(d.threads, ms, reach);
    RepeatedIsNotStorable(d.threads, Found(d.threads, ms, reach));
    UnstorableIsStoredTwice(d, to, ms, [NO_FAULT, NO_FAULT], reach);
  }

  lemma RepeatedIsNotStorable(threads: map<Id, Thread>, known: set<string>)
    requires "a" !in known
    ensures !Storable(threads, [Plain("a"), Plain("a")], known)
  {
    var ms := [Plain("a"), Plain("a")];
    assert Stores(ms, known, 0) && Stores(ms, known, 1);
  }

  /** A stored id that the lookup misses. */
  lemma MissedIdIsStoredTwice(d: Db, to: Target)
    requires FreshIds(d) && Attachable(d.companies, to.company, to.event) && Synced(d.threads, "a")
    ensures var ms := [Plain("a")];
            !OneThreadPerMessage(SyncUpTo(d, to, ms, [NO_FAULT], Found(d.threads, ms, {}), 1).d.threads)
  {
    var ms := [Plain("a")];
    assert Stores(ms, {}, 0);
    UnstorableIsStoredTwice(d, to, ms, [NO_FAULT], {});
  }

  // ---- the handler ----

  method SyncOne(db: Database, to: Target, m: GmailMessage, f: SyncFaults) returns (attached: bool, ghost made: Option<Id>)
    requires to.event == db.event
    modifies db
    ensures One(db.View(), attached, made) == SyncOneSpec(old(db.View()), to, m, f)
  {
    var post := db.CreatePost(Post(to.member, GmailText(m)), f.post);
    if post.None? {
      return false, None;
    }
    ghost var id := db.nextId;
    var kind := From;
    if m.outgoing {
      kind := To;
    }
    var thread := db.CreateThread(Thread(post.value, None, [], kind, StoredId(m)), f.thread);
    if thread.None? {
      var gone := db.DeletePost(post.value);
      return false, if f.thread.ReadBackFails? then Some(id) else None;
    }
    attached := db.AddThread(to.company, thread.value, f.attach);
    if !attached {
      var gone := db.DeletePost(post.value);
      gone := db.DeleteThread(thread.value);
      return false, None;
    }
    made := thread;
  }

  /** GetThreadsByGmailMessageIds, as the set of the ids it finds. */
  method KnownIds(db: Database, ms: seq<GmailMessage>, reach: set<Id>) returns (known: set<string>)
    ensures known == Found(db.threads, ms, reach)
  {
    known := {};
    if |ms| == 0 {
      return;
    }
    var asked := set i | 0 <= i < |ms| :: ms[i].messageId;
    known := set t | t in db.threads && t in reach && db.threads[t].gmailMessageId.Some? && db.threads[t].gmailMessageId.value in asked
             :: db.threads[t].gmailMessageId.value;
  }

  method SyncNext(db: Database, to: Target, ms: seq<GmailMessage>, fs: seq<SyncFaults>, known: set<string>, i: nat,
                  synced: nat, ghost g: Progress)
    returns (synced': nat, ghost g': Progress)
    requires to.event == db.event && i < |ms| == |fs| && g.d == db.View() && synced == |g.attached|
    modifies db
    ensures g' == SyncNextSpec(g, to, ms, fs, known, i) && g'.d == db.View() && synced' == |g'.attached|
  {
    synced', g' := synced, g;
    if ms[i].messageId !in known {
      var ok, t := SyncOne(db, to, ms[i], fs[i]);
      if ok {
        synced' := synced + 1;
      }
      g' := Advance(g, i, One(db.View(), ok, t));
    }
  }

  /** The whole batch. The handler only logs a failed lookup and goes on with what it found. */
  method SyncGmailMessages(db: Database, to: Target, ms: seq<GmailMessage>, reach: set<Id>, fs: seq<SyncFaults>)
    returns (synced: nat, ghost g: Progress)
    requires FreshIds(db.View()) && |fs| == |ms| && to.event == db.event
    modifies db
    ensures FreshIds(db.View()) && g.d == db.View()
    ensures (forall k :: 0 <= k < |ms| ==> ms[k].messageId in Found(old(db.threads), ms, reach)) ==> db.View() == old(db.View())
    ensures g == SyncUpTo(old(db.View()), to, ms, fs, Found(old(db.threads), ms, reach), |ms|)
    ensures synced == |g.attached|
    ensures BatchPromise(old(db.View()), g, to, ms, fs, Found(old(db.threads), ms, reach))
  {
    var known := KnownIds(db, ms, reach);
    ghost var d0 := db.View();
    g := Progress(d0, [], [], map[]);
    synced := 0;
    var i := 0;
    while i < |ms|
      invariant i <= |ms| && g == SyncUpTo(d0, to, ms, fs, known, i) && g.d == db.View()
      invariant synced == |g.attached|
    {
      synced, g := SyncNext(db, to, ms, fs, known, i, synced, g);
      i := i + 1;
    }
    LoopKeepsFreshIds(d0, to, ms, fs, known, |ms|);
    BatchKeepsPromise(d0, to, ms, fs, reach);
    if forall k :: 0 <= k < |ms| ==> ms[k].messageId in known {
      KnownBatchChangesNothing(d0, to, ms, fs, known, |ms|);
    }
  }
}
