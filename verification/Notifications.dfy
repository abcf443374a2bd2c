/**
  Notification fan-out: mongodb/notification.go. A notification is stored unless one with the same
  signature is.
*/
module Notifications {
  import opened Wrappers
  import opened NotificationModel
  import opened Search

  datatype Notification = Notification(member: Id, data: Data, signature: string)

  // ---- the collection ----

  /** The identifiers of the documents themselves only have to be fresh. */
  type DocId = nat

  /** `tries` counts the inserts, the failing ones included. */
  datatype Collection = Collection(docs: map<DocId, Notification>, nextId: DocId, tries: nat)

  const NO_DOCS := Collection(map[], 0, 0)

  /** The digest and which inserts succeed. */
  datatype Server = Server(sha: Digest, inserts: nat -> bool)

  ghost predicate InsertsWork(server: Server) {
    forall k :: server.inserts(k)
  }

  ghost predicate FreshIds(c: Collection) {
    forall i :: i in c.docs ==> i < c.nextId
  }

  function Signatures(c: Collection): set<string> {
    set i | i in c.docs :: c.docs[i].signature
  }

  ghost predicate UniqueSignatures(c: Collection) {
    forall i, j :: i in c.docs && j in c.docs && i != j ==> c.docs[i].signature != c.docs[j].signature
  }

  /** A recipient and what it is told. */
  datatype Recipient = Recipient(member: Id, data: Data)

  function Sign(r: Recipient, server: Server): string {
    Signature(r.member, r.data, server.sha)
  }

  function NotifyMemberStep(c: Collection, r: Recipient, server: Server): Collection {
    if !ValidData(r.data) || Sign(r, server) in Signatures(c) then c
    else if !server.inserts(c.tries) then c.(tries := c.tries + 1)
    else Collection(c.docs[c.nextId := Notification(r.member, r.data, Sign(r, server))], c.nextId + 1, c.tries + 1)
  }

  function NotifyAll(c: Collection, rs: seq<Recipient>, server: Server): Collection {
    if rs == [] then c else NotifyMemberStep(NotifyAll(c, rs[..|rs| - 1], server), rs[|rs| - 1], server)
  }

  /** The signatures of the recipients whose notification is valid. */
  function ValidSignatures(rs: seq<Recipient>, server: Server): set<string> {
    set r | r in rs && ValidData(r.data) :: Sign(r, server)
  }

  lemma {:induction false} NotifyAllConcat(c: Collection, rs: seq<Recipient>, ts: seq<Recipient>, server: Server)
    ensures NotifyAll(c, rs + ts, server) == NotifyAll(NotifyAll(c, rs, server), ts, server)
    decreases |ts|
  {
    if ts == [] {
      assert rs + ts == rs;
    } else {
      NotifyAllConcat(c, rs, ts[..|ts| - 1], server);
      assert (rs + ts)[..|rs + ts| - 1] == rs + ts[..|ts| - 1];
    }
  }

  /** One fan-out adds exactly the missing signatures of its valid recipients and keeps them unique. */
  lemma {:induction false} FanOutAddsTheMissing(c: Collection, rs: seq<Recipient>, server: Server)
    requires FreshIds(c) && UniqueSignatures(c)
    ensures FreshIds(NotifyAll(c, rs, server)) && UniqueSignatures(NotifyAll(c, rs, server))
    ensures Signatures(c) <= Signatures(NotifyAll(c, rs, server)) <= Signatures(c) + ValidSignatures(rs, server)
    ensures InsertsWork(server) ==> Signatures(NotifyAll(c, rs, server)) == Signatures(c) + ValidSignatures(rs, server)
    decreases |rs|
  {
    if rs == [] {
      assert ValidSignatures(rs, server) == {};
    } else {
      var before, r := rs[..|rs| - 1], rs[|rs| - 1];
      FanOutAddsTheMissing(c, before, server);
      assert rs == before + [r];
      OneMoreSignature(before, r, server);
      StepSignatures(NotifyAll(c, before, server), r, server);
      Regroup(Signatures(c), ValidSignatures(before, server), if ValidData(r.data) then {Sign(r, server)} else {});
    }
  }

  lemma Regroup(a: set<string>, b: set<string>, x: set<string>)
    ensures a + b + x == a + (b + x)
  {
  }

  lemma {:induction false} AsManyAsSignatures(docs: map<DocId, Notification>, nextId: DocId)
    requires UniqueSignatures(Collection(docs, nextId, 0))
    ensures |docs| == |Signatures(Collection(docs, nextId, 0))|
    decreases |docs|
  {
    var c := Collection(docs, nextId, 0);
    if docs == map[] {
      assert Signatures(c) == {};
    } else {
      var i :| i in docs;
      var rest := docs - {i};
      AsManyAsSignatures(rest, nextId);
      SignaturesWithout(c, i);
    }
  }

  lemma SignaturesWithout(c: Collection, i: DocId)
    requires UniqueSignatures(c) && i in c.docs
    ensures Signatures(c) == Signatures(c.(docs := c.docs - {i})) + {c.docs[i].signature}
    ensures c.docs[i].signature !in Signatures(c.(docs := c.docs - {i}))
  {
    var rest := c.(docs := c.docs - {i});
    forall s | s in Signatures(c) && s != c.docs[i].signature ensures s in Signatures(rest) {
      var j :| j in c.docs && c.docs[j].signature == s;
      assert j in rest.docs && rest.docs[j].signature == s;
    }
  }

  /** It adds one document for each missing signature. */
  lemma FanOutCounts(c: Collection, rs: seq<Recipient>, server: Server)
    requires FreshIds(c) && UniqueSignatures(c) && InsertsWork(server)
    ensures |NotifyAll(c, rs, server).docs| == |c.docs| + |ValidSignatures(rs, server) - Signatures(c)|
  {
    var c', v := NotifyAll(c, rs, server), ValidSignatures(rs, server);
    FanOutAddsTheMissing(c, rs, server);
    AsManyAsSignatures(c.docs, c.nextId);
    AsManyAsSignatures(c'.docs, c'.nextId);
  }

  /** What was stored stays, and what is new is the notification of one of the recipients. */
  lemma {:induction false} FanOutStores(c: Collection, rs: seq<Recipient>, server: Server, i: DocId)
    requires FreshIds(c) && UniqueSignatures(c)
    ensures i in c.docs ==> i in NotifyAll(c, rs, server).docs && NotifyAll(c, rs, server).docs[i] == c.docs[i]
    ensures i in NotifyAll(c, rs, server).docs && i !in c.docs ==>
              exists r :: r in rs && ValidData(r.data) && NotifyAll(c, rs, server).docs[i] == Notification(r.member, r.data, Sign(r, server))
    decreases |rs|
  {
    if rs == [] {
    } else {
      var before, r := rs[..|rs| - 1], rs[|rs| - 1];
      FanOutStores(c, before, server, i);
      FanOutAddsTheMissing(c, before, server);
    }
  }

  lemma OneMoreSignature(rs: seq<Recipient>, r: Recipient, server: Server)
    ensures ValidSignatures(rs + [r], server) == ValidSignatures(rs, server) + if ValidData(r.data) then {Sign(r, server)} else {}
  {
  }

  lemma StepSignatures(c: Collection, r: Recipient, server: Server)
    requires FreshIds(c) && UniqueSignatures(c)
    ensures var c' := NotifyMemberStep(c, r, server);
            && FreshIds(c') && UniqueSignatures(c')
            && Signatures(c) <= Signatures(c') <= Signatures(c) + (if ValidData(r.data) then {Sign(r, server)} else {})
            && (InsertsWork(server) ==> Signatures(c') == Signatures(c) + (if ValidData(r.data) then {Sign(r, server)} else {}))
            && forall i :: i in c.docs ==> i in c'.docs && c'.docs[i] == c.docs[i]
  {
    var c' := NotifyMemberStep(c, r, server);
    if !ValidData(r.data) || Sign(r, server) in Signatures(c) {
      assert c' == c;
    } else if !server.inserts(c.tries) {
      assert c'.docs == c.docs && Signatures(c') == Signatures(c);
    } else {
      StoredSignatures(c, Notification(r.member, r.data, Sign(r, server)), c');
    }
  }

  lemma StoredSignatures(c: Collection, n: Notification, c': Collection)
    requires FreshIds(c) && c'.docs == c.docs[c.nextId := n]
    ensures Signatures(c') == Signatures(c) + {n.signature}
    ensures UniqueSignatures(c) && n.signature !in Signatures(c) ==> UniqueSignatures(c')
  {
    forall s | s in Signatures(c) + {n.signature} ensures s in Signatures(c') {
      if s == n.signature {
        assert c'.docs[c.nextId].signature == s;
      } else {
        var i :| i in c.docs && c.docs[i].signature == s;
        assert c'.docs[i].signature == s;
      }
    }
    forall s | s in Signatures(c') ensures s in Signatures(c) + {n.signature} {
      var i :| i in c'.docs && c'.docs[i].signature == s;
      assert i in c.docs ==> c.docs[i].signature in Signatures(c);
    }
    assert forall i :: i in c.docs ==> c.docs[i].signature in Signatures(c);
  }

  /** Telling recipients whose signatures are all stored changes nothing. */
  lemma {:induction false} KnownRecipientsChangeNothing(c: Collection, rs: seq<Recipient>, server: Server)
    requires ValidSignatures(rs, server) <= Signatures(c)
    ensures NotifyAll(c, rs, server) == c
    decreases |rs|
  {
    if rs == [] {
    } else {
      var before, r := rs[..|rs| - 1], rs[|rs| - 1];
      assert rs == before + [r];
      OneMoreSignature(before, r, server);
      KnownRecipientsChangeNothing(c, before, server);
    }
  }

  /** Repeating a fan-out is a no-op. */
  lemma RepeatedFanOutIsNoOp(c: Collection, rs: seq<Recipient>, server: Server)
    requires FreshIds(c) && UniqueSignatures(c) && InsertsWork(server)
    ensures NotifyAll(NotifyAll(c, rs, server), rs, server) == NotifyAll(c, rs, server)
  {
    FanOutAddsTheMissing(c, rs, server);
    KnownRecipientsChangeNothing(NotifyAll(c, rs, server), rs, server);
  }

  // ---- runs ----

  datatype Op = Fan(rs: seq<Recipient>) | DeleteOne(id: DocId) | DeleteAllOf(member: Id)

  function OpStep(c: Collection, op: Op, server: Server): Collection {
    match op
    case Fan(rs) => NotifyAll(c, rs, server)
    case DeleteOne(id) => c.(docs := c.docs - {id})
    case DeleteAllOf(member) => c.(docs := map i | i in c.docs && c.docs[i].member != member :: c.docs[i])
  }

  function RunOps(c: Collection, ops: seq<Op>, server: Server): Collection {
    if ops == [] then c else OpStep(RunOps(c, ops[..|ops| - 1], server), ops[|ops| - 1], server)
  }

  lemma RunOneMore(c: Collection, ops: seq<Op>, op: Op, server: Server)
    ensures RunOps(c, [], server) == c
    ensures RunOps(c, ops + [op], server) == OpStep(RunOps(c, ops, server), op, server)
  {
    assert (ops + [op])[..|ops|] == ops;
  }

  /** Signatures stay unique over every run of fan-outs and deletes. */
  lemma {:induction false} SignaturesStayUnique(ops: seq<Op>, server: Server)
    ensures var c := RunOps(NO_DOCS, ops, server); FreshIds(c) && UniqueSignatures(c)
    decreases |ops|
  {
    if ops == [] {
    } else {
      SignaturesStayUnique(ops[..|ops| - 1], server);
      var c, op := RunOps(NO_DOCS, ops[..|ops| - 1], server), ops[|ops| - 1];
      if op.Fan? {
        FanOutAddsTheMissing(c, op.rs, server);
      }
    }
  }

  /** In a run with working inserts each fan-out adds exactly the signatures of its valid recipients. */
  lemma FanOutInRun(ops: seq<Op>, rs: seq<Recipient>, server: Server)
    requires InsertsWork(server)
    ensures Signatures(RunOps(NO_DOCS, ops + [Fan(rs)], server))
            == Signatures(RunOps(NO_DOCS, ops, server)) + ValidSignatures(rs, server)
  {
    SignaturesStayUnique(ops, server);
    RunOneMore(NO_DOCS, ops, Fan(rs), server);
    FanOutAddsTheMissing(RunOps(NO_DOCS, ops, server), rs, server);
  }

  // ---- who is told ----

  datatype Subscription = Subscription(event: int, subscribers: seq<Id>)

  datatype CoordinationTeam = CoordinationTeam(coordinator: Option<Id>, coordinated: seq<Id>)

  /** What Notify reads: `admins` and `teams` are None when their query fails, `tags` finds the
      sinfo ids tagged in a text. */
  datatype Env = Env(
    event: Option<int>, production: bool, admins: Option<seq<Id>>,
    companies: map<Id, seq<Subscription>>, speakers: map<Id, seq<Subscription>>,
    teams: Option<seq<CoordinationTeam>>,
    threads: map<Id, Id>, posts: map<Id, string>,
    tags: string -> seq<string>, members: map<string, Id>)

  function Tell(ms: seq<Id>, d: Data): (rs: seq<Recipient>)
    ensures |rs| == |ms| && forall i :: 0 <= i < |ms| ==> rs[i] == Recipient(ms[i], d)
  {
    seq(|ms|, i requires 0 <= i < |ms| => Recipient(ms[i], d))
  }

  /** In production nobody is told about an action of their own. */
  function Others(ms: seq<Id>, author: Id, production: bool): seq<Id> {
    if ms == [] then []
    else Others(ms[..|ms| - 1], author, production)
         + if production && ms[|ms| - 1] == author then [] else [ms[|ms| - 1]]
  }

  /** The subscribers of the first subscription for the event. */
  function SubscribersOf(ss: seq<Subscription>, event: int): seq<Id> {
    if ss == [] then [] else if ss[0].event == event then ss[0].subscribers else SubscribersOf(ss[1..], event)
  }

  /** The coordinators of the teams in which the author is coordinated. */
  function Coordinators(ts: seq<CoordinationTeam>, author: Id): seq<Id> {
    if ts == [] then []
    else Coordinators(ts[..|ts| - 1], author)
         + if author in ts[|ts| - 1].coordinated && ts[|ts| - 1].coordinator.Some? then [ts[|ts| - 1].coordinator.value] else []
  }

  function TaggedMembers(tags: seq<string>, members: map<string, Id>): seq<Id> {
    if tags == [] then []
    else TaggedMembers(tags[..|tags| - 1], members)
         + if tags[|tags| - 1] in members then [members[tags[|tags| - 1]]] else []
  }

  /** The post whose tags count: the one given, or else the entry of the thread. */
  function TagPost(d: Data, env: Env): Option<Id> {
    if d.post.Some? then (if d.post.value in env.posts then d.post else None)
    else if d.thread.Some? && d.thread.value in env.threads && env.threads[d.thread.value] in env.posts
    then Some(env.threads[d.thread.value]) else None
  }

  function AdminRecipients(d: Data, env: Env): seq<Recipient> {
    if !env.production && env.admins.Some? then Tell(env.admins.value, d) else []
  }

  function SubscriberRecipients(author: Id, d: Data, target: Option<Id>, subscriptions: map<Id, seq<Subscription>>, env: Env): seq<Recipient>
    requires env.event.Some?
  {
    if target.Some? && target.value in subscriptions
    then Tell(Others(SubscribersOf(subscriptions[target.value], env.event.value), author, env.production), d)
    else []
  }

  function CoordinatorRecipients(author: Id, d: Data, env: Env): seq<Recipient> {
    if env.teams.Some? then Tell(Others(Coordinators(env.teams.value, author), author, env.production), d) else []
  }

  function TaggedRecipients(d: Data, env: Env): seq<Recipient> {
    var post := TagPost(d, env);
    if post.Some?
    then Tell(TaggedMembers(env.tags(env.posts[post.value]), env.members), d.(kind := Tagged, post := post))
    else []
  }

  /** Everybody Notify tells, in order; a missing company or speaker ends the fan-out. */
  function Recipients(author: Id, d: Data, env: Env): seq<Recipient> {
    if env.event.None? then [] else
    var admins := AdminRecipients(d, env);
    if d.company.Some? && d.company.value !in env.companies then admins else
    var company := SubscriberRecipients(author, d, d.company, env.companies, env);
    if d.speaker.Some? && d.speaker.value !in env.speakers then admins + company else
    var speaker := SubscriberRecipients(author, d, d.speaker, env.speakers, env);
    admins + company + speaker + CoordinatorRecipients(author, d, env) + TaggedRecipients(d, env)
  }

  class NotificationsType {
    const server: Server
    var col: Collection

    constructor (server: Server)
      ensures this.server == server && col == NO_DOCS
    {
      this.server, col := server, NO_DOCS;
    }

    method NotifyMember(member: Id, data: Data)
      modifies this
      ensures col == NotifyMemberStep(old(col), Recipient(member, data), server)
      ensures var c, signature := old(col), Signature(member, data, server.sha);
              var tried := ValidData(data) && forall i :: i in c.docs ==> c.docs[i].signature != signature;
              && col.tries == c.tries + (if tried then 1 else 0)
              && col.docs == if tried && server.inserts(c.tries) then c.docs[c.nextId := Notification(member, data, signature)] else c.docs
    {
      if !ValidData(data) {
        return;
      }
      var signature := Hash(member, data, server.sha);
      if exists i :: i in col.docs && col.docs[i].signature == signature {
        return;
      }
      if !server.inserts(col.tries) {
        col := col.(tries := col.tries + 1);
        return;
      }
      col := Collection(col.docs[col.nextId := Notification(member, data, signature)], col.nextId + 1, col.tries + 1);
    }

    /** Tells each member of a list in turn. */
    method TellEach(ms: seq<Id>, data: Data)
      modifies this
      ensures col == NotifyAll(old(col), Tell(ms, data), server)
    {
      var i := 0;
      while i < |ms|
        invariant i <= |ms| && col == NotifyAll(old(col), Tell(ms, data)[..i], server)
      {
        NotifyMember(ms[i], data);
        assert Tell(ms, data)[..i + 1][..i] == Tell(ms, data)[..i];
        i := i + 1;
      }
      assert Tell(ms, data)[..i] == Tell(ms, data);
    }

    /** Tells the subscribers of the first subscription for the event. */
    method TellSubscribers(author: Id, data: Data, ss: seq<Subscription>, env: Env)
      requires env.event.Some?
      modifies this
      ensures col == NotifyAll(old(col), Tell(Others(SubscribersOf(ss, env.event.value), author, env.production), data), server)
    {
      var i := 0;
      while i < |ss|
        invariant i <= |ss| && col == old(col)
        invariant SubscribersOf(ss, env.event.value) == SubscribersOf(ss[i..], env.event.value)
      {
        if ss[i].event == env.event.value {
          TellOthers(author, data, ss[i].subscribers, env.production);
          return;
        }
        i := i + 1;
      }
    }

    method TellOthers(author: Id, data: Data, ms: seq<Id>, production: bool)
      modifies this
      ensures col == NotifyAll(old(col), Tell(Others(ms, author, production), data), server)
    {
      var i := 0;
      while i < |ms|
        invariant i <= |ms| && col == NotifyAll(old(col), Tell(Others(ms[..i], author, production), data), server)
      {
        assert ms[..i + 1][..i] == ms[..i];
        if !(production && ms[i] == author) {
          NotifyMember(ms[i], data);
          TellOneMore(Others(ms[..i], author, production), ms[i], data);
        } else {
          assert Others(ms[..i], author, production) + [] == Others(ms[..i], author, production);
        }
        i := i + 1;
      }
      assert ms[..i] == ms;
    }

    method TellCoordinators(author: Id, data: Data, ts: seq<CoordinationTeam>, production: bool)
      modifies this
      ensures col == NotifyAll(old(col), Tell(Others(Coordinators(ts, author), author, production), data), server)
    {
      var i := 0;
      while i < |ts|
        invariant i <= |ts|
        invariant col == NotifyAll(old(col), CoordinatorsTold(ts, i, author, production, data), server)
      {
        CoordinatorsToldOneMore(ts, i, author, production, data);
        i := i + 1;
        if author !in ts[i - 1].coordinated || ts[i - 1].coordinator.None? {
          continue;
        }
        var m := ts[i - 1].coordinator.value;
        if production && m == author {
          continue;
        }
        NotifyMember(m, data);
      }
      assert ts[..i] == ts;
    }

    method TellTagged(data: Data, tags: seq<string>, members: map<string, Id>)
      modifies this
      ensures col == NotifyAll(old(col), Tell(TaggedMembers(tags, members), data), server)
    {
      var i := 0;
      while i < |tags|
        invariant i <= |tags| && col == NotifyAll(old(col), Tell(TaggedMembers(tags[..i], members), data), server)
      {
        assert tags[..i + 1][..i] == tags[..i];
        if tags[i] in members {
          NotifyMember(members[tags[i]], data);
          TellOneMore(TaggedMembers(tags[..i], members), members[tags[i]], data);
        } else {
          assert TaggedMembers(tags[..i], members) + [] == TaggedMembers(tags[..i], members);
        }
        i := i + 1;
      }
      assert tags[..i] == tags;
    }

    /** The part of Notify that looks up the tagged members. */
    method NotifyTagged(data: Data, env: Env)
      modifies this
      ensures col == NotifyAll(old(col), TaggedRecipients(data, env), server)
    {
      var post: Option<Id> := None;
      if data.thread.Some? && data.post.None? {
        if data.thread.value !in env.threads || env.threads[data.thread.value] !in env.posts {
          return;
        }
        post := Some(env.threads[data.thread.value]);
      } else if data.post.Some? {
        if data.post.value !in env.posts {
          return;
        }
        post := data.post;
      }
      if post.None? {
        return;
      }
      TellTagged(data.(kind := Tagged, post := post), env.tags(env.posts[post.value]), env.members);
    }

    /** Answers what was deleted, or that there is no such document. */
    method DeleteNotification(id: DocId) returns (r: Option<Notification>)
      modifies this
      ensures col == OpStep(old(col), DeleteOne(id), server)
      ensures r == if id in old(col).docs then Some(old(col).docs[id]) else None
      ensures id !in col.docs && forall i :: i in old(col).docs && i != id ==> i in col.docs && col.docs[i] == old(col).docs[i]
    {
      if id !in col.docs {
        assert col.docs - {id} == col.docs;
        return None;
      }
      r := Some(col.docs[id]);
      col := col.(docs := col.docs - {id});
    }

    /** Answers how many documents were deleted. */
    method DeleteAllMemberNotifications(member: Id) returns (count: nat)
      modifies this
      ensures col == OpStep(old(col), DeleteAllOf(member), server)
      ensures count == |old(col).docs| - |col.docs|
      ensures forall i :: i in col.docs <==> i in old(col).docs && old(col).docs[i].member != member
      ensures forall i :: i in col.docs ==> col.docs[i] == old(col).docs[i]
    {
      var kept := map i | i in col.docs && col.docs[i].member != member :: col.docs[i];
      FewerDocs(kept, col.docs);
      count := |col.docs| - |kept|;
      col := col.(docs := kept);
    }

    method Notify(author: Id, data: Data, env: Env)
      modifies this
      ensures col == NotifyAll(old(col), Recipients(author, data, env), server)
    {
      if env.event.None? {
        return;
      }
      ghost var c0 := col;
      if !env.production && env.admins.Some? {
        TellEach(env.admins.value, data);
      }
      ghost var admins := AdminRecipients(data, env);
      if data.company.Some? {
        if data.company.value !in env.companies {
          return;
        }
        TellSubscribers(author, data, env.companies[data.company.value], env);
      }
      ghost var company := SubscriberRecipients(author, data, data.company, env.companies, env);
      NotifyAllConcat(c0, admins, company, server);
      if data.speaker.Some? {
        if data.speaker.value !in env.speakers {
          return;
        }
        TellSubscribers(author, data, env.speakers[data.speaker.value], env);
      }
      ghost var speaker := SubscriberRecipients(author, data, data.speaker, env.speakers, env);
      NotifyAllConcat(c0, admins + company, speaker, server);
      if env.teams.Some? {
        TellCoordinators(author, data, env.teams.value, env.production);
      }
      ghost var coordinators := CoordinatorRecipients(author, data, env);
      NotifyAllConcat(c0, admins + company + speaker, coordinators, server);
      NotifyTagged(data, env);
      NotifyAllConcat(c0, admins + company + speaker + coordinators, TaggedRecipients(data, env), server);
    }
  }

  lemma FewerDocs(kept: map<DocId, Notification>, docs: map<DocId, Notification>)
    requires kept.Keys <= docs.Keys
    ensures |kept| <= |docs|
  {
    assert docs.Keys == kept.Keys + (docs.Keys - kept.Keys);
    assert |docs.Keys| == |kept.Keys| + |docs.Keys - kept.Keys|;
  }

  lemma CoordinatorsOneMore(ts: seq<CoordinationTeam>, author: Id, i: nat)
    requires i < |ts|
    ensures Coordinators(ts[..i + 1], author)
            == if author in ts[i].coordinated && ts[i].coordinator.Some?
               then Coordinators(ts[..i], author) + [ts[i].coordinator.value] else Coordinators(ts[..i], author)
  {
    assert ts[..i + 1][..i] == ts[..i];
  }

  /** Who was told after the first i teams. */
  function CoordinatorsTold(ts: seq<CoordinationTeam>, i: nat, author: Id, production: bool, d: Data): seq<Recipient>
    requires i <= |ts|
  {
    Tell(Others(Coordinators(ts[..i], author), author, production), d)
  }

  lemma CoordinatorsToldOneMore(ts: seq<CoordinationTeam>, i: nat, author: Id, production: bool, d: Data)
    requires i < |ts|
    ensures var before, after := CoordinatorsTold(ts, i, author, production, d), CoordinatorsTold(ts, i + 1, author, production, d);
            after == if author in ts[i].coordinated && ts[i].coordinator.Some? && !(production && ts[i].coordinator.value == author)
                     then before + [Recipient(ts[i].coordinator.value, d)] else before
  {
    CoordinatorsOneMore(ts, author, i);
    var before := Coordinators(ts[..i], author);
    if author in ts[i].coordinated && ts[i].coordinator.Some? {
      TellOneMore(Others(before, author, production), ts[i].coordinator.value, d);
    }
  }

  lemma TellOneMore(ms: seq<Id>, m: Id, d: Data)
    ensures Tell(ms + [m], d) == Tell(ms, d) + [Recipient(m, d)]
    ensures (Tell(ms, d) + [Recipient(m, d)])[..|ms|] == Tell(ms, d)
  {
  }

  /** The list of the first subscription for the event, or nothing. */
  lemma {:induction false} SubscribersAreTheFirst(ss: seq<Subscription>, event: int, i: nat)
    requires i <= |ss| && (i < |ss| ==> ss[i].event == event) && forall j :: 0 <= j < i ==> ss[j].event != event
    ensures SubscribersOf(ss, event) == if i < |ss| then ss[i].subscribers else []
  {
    if i > 0 {
      SubscribersAreTheFirst(ss[1..], event, i - 1);
    }
  }

  ghost predicate Subscribes(ss: seq<Subscription>, event: int, m: Id) {
    exists i :: 0 <= i < |ss| && ss[i].event == event && m in ss[i].subscribers && forall j :: 0 <= j < i ==> ss[j].event != event
  }

  lemma SubscribersAre(ss: seq<Subscription>, event: int, m: Id)
    ensures m in SubscribersOf(ss, event) <==> Subscribes(ss, event, m)
  {
    var i := IndexOf(ss, (s: Subscription) => s.event == event);
    SubscribersAreTheFirst(ss, event, i);
  }

  // ---- the promise of one call ----

  ghost predicate IsAdmin(env: Env, m: Id) {
    !env.production && env.admins.Some? && m in env.admins.value
  }

  ghost predicate SubscribesTo(target: Option<Id>, subscriptions: map<Id, seq<Subscription>>, env: Env, m: Id) {
    target.Some? && target.value in subscriptions && env.event.Some? && Subscribes(subscriptions[target.value], env.event.value, m)
  }

  ghost predicate CoordinatesAuthor(env: Env, author: Id, m: Id) {
    env.teams.Some? && exists t :: t in env.teams.value && author in t.coordinated && t.coordinator == Some(m)
  }

  /** The post is the one given, or else the entry of the thread, and it can be read. */
  ghost predicate HoldsTags(d: Data, env: Env, post: Id) {
    && post in env.posts
    && (d.post == Some(post) || (d.post.None? && d.thread.Some? && d.thread.value in env.threads && env.threads[d.thread.value] == post))
  }

  /** A tagged member is told of the tag, with the post that holds it. */
  ghost predicate IsTagged(d: Data, env: Env, r: Recipient) {
    exists post: Id :: HoldsTags(d, env, post) && r.data == d.(kind := Tagged, post := Some(post))
                   && exists tag :: tag in env.tags(env.posts[post]) && tag in env.members && env.members[tag] == r.member
  }

  predicate Known(target: Option<Id>, subscriptions: map<Id, seq<Subscription>>) {
    target.None? || target.value in subscriptions
  }

  /** Who is told what, in every environment: nobody without a current event; the admins outside
      production; the subscribers of the company if it is known; and if the speaker is known too, its
      subscribers, the coordinators of the author, and the tagged members. In production the author
      is told of nothing but tags. */
  lemma WhoIsTold(author: Id, d: Data, env: Env, r: Recipient)
    ensures var m := r.member; var own := env.production && m == author;
            r in Recipients(author, d, env) <==>
              && env.event.Some?
              && (|| (r.data == d && IsAdmin(env, m))
                  || (Known(d.company, env.companies) &&
                      (|| (r.data == d && !own && SubscribesTo(d.company, env.companies, env, m))
                       || (Known(d.speaker, env.speakers) &&
                           (|| (r.data == d && !own && SubscribesTo(d.speaker, env.speakers, env, m))
                            || (r.data == d && !own && CoordinatesAuthor(env, author, m))
                            || IsTagged(d, env, r))))))
  {
    if env.event.Some? {
      WhoSubscribes(author, d, d.company, env.companies, env, r);
      WhoSubscribes(author, d, d.speaker, env.speakers, env, r);
    }
    WhoCoordinates(author, d, env, r);
    WhoIsTagged(d, env, r);
  }

  lemma WhoSubscribes(author: Id, d: Data, target: Option<Id>, subscriptions: map<Id, seq<Subscription>>, env: Env, r: Recipient)
    requires env.event.Some?
    ensures r in SubscriberRecipients(author, d, target, subscriptions, env) <==>
              r.data == d && !(env.production && r.member == author) && SubscribesTo(target, subscriptions, env, r.member)
  {
    if target.Some? && target.value in subscriptions {
      var ms := SubscribersOf(subscriptions[target.value], env.event.value);
      SubscribersAre(subscriptions[target.value], env.event.value, r.member);
      OthersMembers(ms, author, env.production, r.member);
    }
  }

  lemma WhoCoordinates(author: Id, d: Data, env: Env, r: Recipient)
    ensures r in CoordinatorRecipients(author, d, env) <==>
              r.data == d && !(env.production && r.member == author) && CoordinatesAuthor(env, author, r.member)
  {
    if env.teams.Some? {
      var ms := Coordinators(env.teams.value, author);
      CoordinatorsMembers(env.teams.value, author, r.member);
      OthersMembers(ms, author, env.production, r.member);
    }
  }

  lemma WhoIsTagged(d: Data, env: Env, r: Recipient)
    ensures r in TaggedRecipients(d, env) <==> IsTagged(d, env, r)
  {
    var post := TagPost(d, env);
    assert forall p: Id :: HoldsTags(d, env, p) <==> post == Some(p);
    if post.Some? {
      var tags := env.tags(env.posts[post.value]);
      TaggedMembersAre(tags, env.members, r.member);
    }
  }

  lemma {:induction false} TaggedMembersAre(tags: seq<string>, members: map<string, Id>, m: Id)
    ensures m in TaggedMembers(tags, members) <==> exists tag :: tag in tags && tag in members && members[tag] == m
  {
    if tags == [] {
    } else {
      TaggedMembersAre(tags[..|tags| - 1], members, m);
      assert tags == tags[..|tags| - 1] + [tags[|tags| - 1]];
    }
  }

  lemma {:induction false} OthersMembers(ms: seq<Id>, author: Id, production: bool, m: Id)
    ensures m in Others(ms, author, production) <==> m in ms && !(production && m == author)
  {
    if ms == [] {
    } else {
      OthersMembers(ms[..|ms| - 1], author, production, m);
      assert ms == ms[..|ms| - 1] + [ms[|ms| - 1]];
    }
  }

  lemma {:induction false} CoordinatorsMembers(ts: seq<CoordinationTeam>, author: Id, m: Id)
    ensures m in Coordinators(ts, author) <==> exists t :: t in ts && author in t.coordinated && t.coordinator == Some(m)
  {
    if ts == [] {
    } else {
      CoordinatorsMembers(ts[..|ts| - 1], author, m);
      assert ts == ts[..|ts| - 1] + [ts[|ts| - 1]];
    }
  }
}
