/**
  Team roles and the credentials they give: models/team.go, mongodb/team.go,
  mongodb/member.go and auth/roles.go.
*/
module Roles {
  import opened Wrappers
  import opened Search

  type Id = nat

  const ROLE_TEXTS: set<string> := {"MEMBER", "TEAMLEADER", "COORDINATOR", "ADMIN"}

  type OtherRole = t: string | t !in ROLE_TEXTS

  /** `Other` is any text that is not a role. */
  datatype Role = Member | TeamLeader | Coordinator | Admin | Other(text: OtherRole)

  /** Lower values mean more permissions; -1 is no role at all. */
  function AccessLevel(r: Role): (level: int)
    ensures -1 <= level <= 3 && (level == -1 <==> r.Other?)
    ensures level == 0 <==> r.Admin?
    ensures level == 1 <==> r.Coordinator?
    ensures level == 2 <==> r.TeamLeader?
  {
    match r
    case Member => 3
    case TeamLeader => 2
    case Coordinator => 1
    case Admin => 0
    case Other(_) => -1
  }

  datatype TeamMember = TeamMember(member: Id, role: Role)

  datatype Team = Team(id: Id, name: string, members: seq<TeamMember>)

  datatype Person = Person(id: Id, sinfoId: string)

  datatype Credentials = Credentials(id: Id, sinfoId: string, role: Role, team: string)

  // ---- membership lists ----

  predicate HasMember(ms: seq<TeamMember>, m: Id) {
    exists x :: x in ms && x.member == m
  }

  ghost predicate DistinctMembers(ms: seq<TeamMember>) {
    forall i, j :: 0 <= i < j < |ms| ==> ms[i].member != ms[j].member
  }

  /** The position of the first entry for a member, or the length. */
  function FindMember(ms: seq<TeamMember>, m: Id): (i: nat)
    ensures i <= |ms| && (i < |ms| ==> ms[i].member == m)
    ensures forall j :: 0 <= j < i ==> ms[j].member != m
  {
    IndexOf(ms, (x: TeamMember) => x.member == m)
  }

  /** What a membership list stands for: the role of each member. */
  function RolesOf(ms: seq<TeamMember>): map<Id, Role> {
    if ms == [] then map[] else RolesOf(ms[1..])[ms[0].member := ms[0].role]
  }

  datatype TeamCall =
    | AddMember(team: Id, member: Id, role: Role)
    | SetRole(team: Id, member: Id, role: Role)
    | DeleteMember(team: Id, member: Id)

  /** The new list, None when the call fails. */
  function EditMembers(ms: seq<TeamMember>, call: TeamCall): Option<seq<TeamMember>> {
    var i := FindMember(ms, call.member);
    match call
    case AddMember(_, m, role) => if i < |ms| then None else Some(ms + [TeamMember(m, role)])
    case SetRole(_, m, role) => if i == |ms| then None else Some(ms[i := TeamMember(m, role)])
    case DeleteMember(_, _) => if i == |ms| then None else Some(ms[..i] + ms[i + 1..])
  }

  lemma {:induction false} RolesOfLookup(ms: seq<TeamMember>, m: Id)
    ensures m in RolesOf(ms) <==> FindMember(ms, m) < |ms|
    ensures m in RolesOf(ms) ==> RolesOf(ms)[m] == ms[FindMember(ms, m)].role
    ensures m in RolesOf(ms) <==> HasMember(ms, m)
  {
    if ms == [] {
    } else {
      RolesOfLookup(ms[1..], m);
      assert ms == [ms[0]] + ms[1..];
    }
  }

  lemma {:induction false} AppendIsInsert(ms: seq<TeamMember>, x: TeamMember)
    requires x.member !in RolesOf(ms)
    ensures RolesOf(ms + [x]) == RolesOf(ms)[x.member := x.role]
  {
    if ms == [] {
    } else {
      assert (ms + [x])[1..] == ms[1..] + [x];
      AppendIsInsert(ms[1..], x);
    }
  }

  lemma {:induction false} ReplaceIsUpdate(ms: seq<TeamMember>, i: nat, role: Role)
    requires i < |ms| && forall j :: 0 <= j < i ==> ms[j].member != ms[i].member
    ensures RolesOf(ms[i := TeamMember(ms[i].member, role)]) == RolesOf(ms)[ms[i].member := role]
  {
    if i == 0 {
    } else {
      assert ms[i := TeamMember(ms[i].member, role)][1..] == ms[1..][i - 1 := TeamMember(ms[i].member, role)];
      ReplaceIsUpdate(ms[1..], i - 1, role);
    }
  }

  lemma {:induction false} CutIsRemove(ms: seq<TeamMember>, i: nat)
    requires i < |ms| && forall j :: 0 <= j < |ms| && j != i ==> ms[j].member != ms[i].member
    ensures RolesOf(ms[..i] + ms[i + 1..]) == RolesOf(ms) - {ms[i].member}
  {
    if i == 0 {
      assert ms[..0] + ms[1..] == ms[1..];
      RolesOfLookup(ms[1..], ms[0].member);
    } else {
      assert (ms[..i] + ms[i + 1..])[1..] == ms[1..][..i - 1] + ms[1..][i..];
      CutIsRemove(ms[1..], i - 1);
    }
  }

  /** On lists without repeated members the three calls are insertion, update and removal of one
      key, they succeed exactly when the key is absent or present as they need, and they keep the
      members distinct. */
  lemma EditMembersIsMapEdit(ms: seq<TeamMember>, call: TeamCall)
    requires DistinctMembers(ms)
    ensures EditMembers(ms, call).Some? <==> (call.AddMember? <==> call.member !in RolesOf(ms))
    ensures EditMembers(ms, call).Some? ==> DistinctMembers(EditMembers(ms, call).value)
    ensures EditMembers(ms, call).Some? ==>
              RolesOf(EditMembers(ms, call).value)
              == if call.DeleteMember? then RolesOf(ms) - {call.member} else RolesOf(ms)[call.member := call.role]
  {
    RolesOfLookup(ms, call.member);
    var i := FindMember(ms, call.member);
    if call.AddMember? && i == |ms| {
      AppendIsInsert(ms, TeamMember(call.member, call.role));
    } else if call.SetRole? && i < |ms| {
      ReplaceIsUpdate(ms, i, call.role);
    } else if call.DeleteMember? && i < |ms| {
      CutIsRemove(ms, i);
    }
  }

  class TeamsType {
    var teams: seq<Team>
    /** The ids of the members collection. */
    var known: set<Id>

    constructor ()
      ensures teams == [] && known == {}
    {
      teams, known := [], {};
    }

    /** AddTeamMember, UpdateTeamMemberRole and DeleteTeamMember. */
    method EditTeam(call: TeamCall) returns (ok: bool)
      modifies `teams
      ensures teams == TeamsAfter(old(teams), call, known)
      ensures ok <==> call.member in known && FindTeam(old(teams), call.team) < |old(teams)|
                      && EditMembers(old(teams)[FindTeam(old(teams), call.team)].members, call).Some?
    {
      if call.member !in known {
        return false;
      }
      var i := 0;
      while i < |teams| && teams[i].id != call.team
        invariant i <= |teams| && forall j :: 0 <= j < i ==> teams[j].id != call.team
      {
        i := i + 1;
      }
      assert FindTeam(teams, call.team) == i;
      if i == |teams| {
        return false;
      }
      var ms := EditList(teams[i].members, call);
      if ms.None? {
        return false;
      }
      teams := teams[i := teams[i].(members := ms.value)];
      ok := true;
    }

    method EditList(ms: seq<TeamMember>, call: TeamCall) returns (out: Option<seq<TeamMember>>)
      ensures out == EditMembers(ms, call)
    {
      var k := 0;
      while k < |ms| && ms[k].member != call.member
        invariant k <= |ms| && forall j :: 0 <= j < k ==> ms[j].member != call.member
      {
        k := k + 1;
      }
      assert FindMember(ms, call.member) == k;
      match call {
        case AddMember(_, m, role) =>
          if k < |ms| {
            return None;
          }
          out := Some(ms + [TeamMember(m, role)]);
        case SetRole(_, m, role) =>
          if k == |ms| {
            return None;
          }
          out := Some(ms[k := TeamMember(m, role)]);
        case DeleteMember(_, m) =>
          if k == |ms| {
            return None;
          }
          out := Some(ms[..k] + ms[k + 1..]);
      }
    }
  }

  function FindTeam(ts: seq<Team>, id: Id): (i: nat)
    ensures i <= |ts| && (i < |ts| ==> ts[i].id == id)
    ensures forall j :: 0 <= j < i ==> ts[j].id != id
  {
    IndexOf(ts, (t: Team) => t.id == id)
  }

  function TeamsAfter(ts: seq<Team>, call: TeamCall, known: set<Id>): seq<Team> {
    var i := FindTeam(ts, call.team);
    if call.member !in known || i == |ts| then ts else
    var r := EditMembers(ts[i].members, call);
    if r.None? then ts else ts[i := ts[i].(members := r.value)]
  }

  function RunCalls(ts: seq<Team>, calls: seq<TeamCall>, known: set<Id>): seq<Team> {
    if calls == [] then ts else TeamsAfter(RunCalls(ts, calls[..|calls| - 1], known), calls[|calls| - 1], known)
  }

  /** A call changes the members of one team, the first with the id, or nothing when the member is not
      known, there is no such team or the list cannot be edited. */
  lemma CallChangesOneTeam(ts: seq<Team>, call: TeamCall, known: set<Id>)
    ensures var after := TeamsAfter(ts, call, known);
            if exists i :: CanEdit(ts, call, known, i)
            then exists i :: CanEdit(ts, call, known, i)
                             && after == ts[i := Team(call.team, ts[i].name, EditMembers(ts[i].members, call).value)]
            else after == ts
  {
    var i := FindTeam(ts, call.team);
    if i < |ts| {
      assert CanEdit(ts, call, known, i) <==> call.member in known && EditMembers(ts[i].members, call).Some?;
    }
  }

  ghost predicate CanEdit(ts: seq<Team>, call: TeamCall, known: set<Id>, i: int) {
    && call.member in known && 0 <= i < |ts| && ts[i].id == call.team
    && (forall j :: 0 <= j < i ==> ts[j].id != call.team) && EditMembers(ts[i].members, call).Some?
  }

  ghost predicate AllDistinct(ts: seq<Team>) {
    forall i :: 0 <= i < |ts| ==> DistinctMembers(ts[i].members)
  }

  lemma RunOneMore(ts: seq<Team>, calls: seq<TeamCall>, call: TeamCall, known: set<Id>)
    ensures RunCalls(ts, [], known) == ts
    ensures RunCalls(ts, calls + [call], known) == TeamsAfter(RunCalls(ts, calls, known), call, known)
  {
    assert (calls + [call])[..|calls|] == calls;
  }

  /** Over every run of the membership calls no team lists a member twice. */
  lemma {:induction false} RunsKeepMembersDistinct(ts: seq<Team>, calls: seq<TeamCall>, known: set<Id>)
    requires AllDistinct(ts)
    ensures AllDistinct(RunCalls(ts, calls, known))
    decreases |calls|
  {
    if calls == [] {
    } else {
      var before, call := RunCalls(ts, calls[..|calls| - 1], known), calls[|calls| - 1];
      RunsKeepMembersDistinct(ts, calls[..|calls| - 1], known);
      var i := FindTeam(before, call.team);
      if i < |before| {
        EditMembersIsMapEdit(before[i].members, call);
      }
    }
  }

  // ---- credentials ----

  /** GetTeams with an event and a member: the teams of the event that list the member. */
  predicate InEventTeam(t: Team, event: set<Id>, m: Id) {
    t.id in event && HasMember(t.members, m)
  }

  /** Some entry of the member in a team of the event gives at least the access of `level`. */
  ghost predicate HasEntry(ts: seq<Team>, event: set<Id>, m: Id, level: int) {
    exists t, x :: t in ts && t.id in event && x in t.members && x.member == m && 0 <= AccessLevel(x.role) <= level
  }

  /** The member's most powerful role among the first entries of the teams of the event. */
  datatype Best = NoBest | Best(role: Role, team: string)

  function BestOf(ts: seq<Team>, event: set<Id>, m: Id): Best {
    if ts == [] then NoBest else
    var before, t := BestOf(ts[..|ts| - 1], event, m), ts[|ts| - 1];
    if !InEventTeam(t, event, m) then before else
    var i := FindMember(t.members, m);
    if i == |t.members| then before else
    var role := t.members[i].role;
    if AccessLevel(role) == -1 then before
    else if before.NoBest? || AccessLevel(role) < AccessLevel(before.role) then Best(role, t.name)
    else before
  }

  datatype AuthError = NotFound | Duplicate | NoTeam | QueryFailed

  /** What the queries answer: the teams of the current event, the members collection, and whether the
      teams of a member can be read. */
  datatype Answers = Answers(event: Option<set<Id>>, people: Option<seq<Person>>, teams: Id -> bool)

  function CredentialsFor(ps: seq<Person>, ts: seq<Team>, event: set<Id>, reach: Id -> bool): Result<Option<Credentials>, AuthError> {
    if ps == [] then Ok(None) else
    var before, p := CredentialsFor(ps[..|ps| - 1], ts, event, reach), ps[|ps| - 1];
    if before.Err? then before else
    if !reach(p.id) then Err(QueryFailed) else
    var best := BestOf(ts, event, p.id);
    if best.NoBest? then before
    else if before.value.Some? then Err(Duplicate)
    else Ok(Some(Credentials(p.id, p.sinfoId, best.role, best.team)))
  }

  function BySinfoId(ps: seq<Person>, sinfoId: string): (out: seq<Person>)
    ensures |out| <= |ps|
  {
    if ps == [] then []
    else BySinfoId(ps[..|ps| - 1], sinfoId) + if ps[|ps| - 1].sinfoId == sinfoId then [ps[|ps| - 1]] else []
  }

  /** Each member with the sinfo id is found as often as it is stored, and no other. */
  lemma {:induction false} BySinfoIdCount(ps: seq<Person>, sinfoId: string, p: Person)
    ensures multiset(BySinfoId(ps, sinfoId))[p] == if p.sinfoId == sinfoId then multiset(ps)[p] else 0
  {
    if ps == [] {
    } else {
      BySinfoIdCount(ps[..|ps| - 1], sinfoId, p);
      assert ps == ps[..|ps| - 1] + [ps[|ps| - 1]];
    }
  }

  function AuthCredentials(ts: seq<Team>, answers: Answers, sinfoId: string): Result<Credentials, AuthError> {
    if answers.event.None? || answers.people.None? then Err(QueryFailed) else
    var ps := BySinfoId(answers.people.value, sinfoId);
    if ps == [] then Err(NotFound) else
    var r := CredentialsFor(ps, ts, answers.event.value, answers.teams);
    if r.Err? then Err(r.error) else if r.value.None? then Err(NoTeam) else Ok(r.value.value)
  }

  predicate CheckAccessLevel(required: Role, c: Credentials) {
    var requiredLevel := AccessLevel(required);
    var level := AccessLevel(c.role);
    requiredLevel >= 0 && !(level < 0 || level > requiredLevel)
  }

  /** The inner loop of GetMemberAuthCredentials. */
  method BestRole(ts: seq<Team>, event: set<Id>, m: Id) returns (level: int, role: Role, team: string)
    ensures level == -1 <==> BestOf(ts, event, m).NoBest?
    ensures level != -1 ==> BestOf(ts, event, m) == Best(role, team) && level == AccessLevel(role)
  {
    level, role, team := -1, Role.Other(""), "";
    var k := 0;
    while k < |ts|
      invariant k <= |ts|
      invariant level == -1 <==> BestOf(ts[..k], event, m).NoBest?
      invariant level != -1 ==> BestOf(ts[..k], event, m) == Best(role, team) && level == AccessLevel(role)
    {
      assert ts[..k + 1][..k] == ts[..k];
      var t := ts[k];
      k := k + 1;
      if !InEventTeam(t, event, m) {
        continue;
      }
      var at := FindMember(t.members, m);
      if at == |t.members| {
        continue;
      }
      var currentLevel := AccessLevel(t.members[at].role);
      if currentLevel == -1 {
        continue;
      }
      if level == -1 || currentLevel < level {
        level, role, team := currentLevel, t.members[at].role, t.name;
      }
    }
    assert ts[..k] == ts;
  }

  method GetMemberAuthCredentials(ts: seq<Team>, answers: Answers, sinfoId: string) returns (r: Result<Credentials, AuthError>)
    ensures r == AuthCredentials(ts, answers, sinfoId)
    ensures AllDistinct(ts) && AllAnswered(answers, sinfoId) ==> Decided(r, answers.people.value, sinfoId, ts, answers.event.value)
  {
    if AllDistinct(ts) && AllAnswered(answers, sinfoId) {
      CredentialsDecided(ts, answers, sinfoId);
    }
    if answers.event.None? || answers.people.None? {
      return Err(QueryFailed);
    }
    var event := answers.event.value;
    var members := BySinfoId(answers.people.value, sinfoId);
    if |members| == 0 {
      return Err(NotFound);
    }
    var result: Option<Credentials> := None;
    var i := 0;
    while i < |members|
      invariant i <= |members| && CredentialsFor(members[..i], ts, event, answers.teams) == Ok(result)
    {
      var member := members[i];
      assert members[..i + 1][..i] == members[..i];
      i := i + 1;
      if !answers.teams(member.id) {
        ErrorStays(members, ts, event, answers.teams, i);
        return Err(QueryFailed);
      }
      var level, role, team := BestRole(ts, event, member.id);
      if level == -1 {
        continue;
      }
      if result.Some? {
        ErrorStays(members, ts, event, answers.teams, i);
        return Err(Duplicate);
      }
      result := Some(Credentials(member.id, member.sinfoId, role, team));
    }
    assert members[..i] == members;
    if result.None? {
      return Err(NoTeam);
    }
    r := Ok(result.value);
  }

  lemma {:induction false} ErrorStays(ps: seq<Person>, ts: seq<Team>, event: set<Id>, reach: Id -> bool, n: nat)
    requires n <= |ps| && CredentialsFor(ps[..n], ts, event, reach).Err?
    ensures CredentialsFor(ps, ts, event, reach) == CredentialsFor(ps[..n], ts, event, reach)
    decreases |ps| - n
  {
    if n == |ps| {
      assert ps[..n] == ps;
    } else {
      assert ps[..n + 1][..n] == ps[..n];
      ErrorStays(ps, ts, event, reach, n + 1);
    }
  }

  lemma {:induction false} BestOfOneMore(ts: seq<Team>, t: Team, event: set<Id>, m: Id)
    ensures (ts + [t])[..|ts|] == ts && (ts + [t])[|ts|] == t
    ensures var i := FindMember(t.members, m); var b := BestOf(ts, event, m);
            BestOf(ts + [t], event, m) ==
            if t.id in event && i < |t.members| && AccessLevel(t.members[i].role) != -1
               && (b.NoBest? || AccessLevel(t.members[i].role) < AccessLevel(b.role))
            then Best(t.members[i].role, t.name) else b
  {
    RolesOfLookup(t.members, m);
  }

  lemma {:induction false} BestHasLevel(ts: seq<Team>, event: set<Id>, m: Id)
    ensures BestOf(ts, event, m).Best? ==> AccessLevel(BestOf(ts, event, m).role) >= 0
  {
    if ts == [] {
    } else {
      BestHasLevel(ts[..|ts| - 1], event, m);
    }
  }

  /** The best role is as good as any entry of the member, when no team lists a member twice. */
  lemma {:induction false} BestIsBest(ts: seq<Team>, event: set<Id>, m: Id, level: int)
    requires AllDistinct(ts)
    ensures HasEntry(ts, event, m, level) <==>
              BestOf(ts, event, m).Best? && 0 <= AccessLevel(BestOf(ts, event, m).role) <= level
    decreases |ts|
  {
    if ts == [] {
    } else {
      var rest, t := ts[..|ts| - 1], ts[|ts| - 1];
      assert ts == rest + [t];
      BestIsBest(rest, event, m, level);
      BestHasLevel(rest, event, m);
      BestOfOneMore(rest, t, event, m);
    }
  }

  /** The first entry of the member in this team of the event has the role. */
  ghost predicate Gives(t: Team, event: set<Id>, m: Id, role: Role) {
    && t.id in event && !role.Other?
    && exists k :: 0 <= k < |t.members| && t.members[k] == TeamMember(m, role) && forall l :: 0 <= l < k ==> t.members[l].member != m
  }

  /** The valid role of the first entry of the member in this team of the event. */
  function RoleIn(t: Team, event: set<Id>, m: Id): Option<Role> {
    var i := FindMember(t.members, m);
    if t.id in event && i < |t.members| && AccessLevel(t.members[i].role) != -1 then Some(t.members[i].role) else None
  }

  lemma RoleInIsFirstEntry(t: Team, event: set<Id>, m: Id, role: Role)
    ensures RoleIn(t, event, m) == Some(role) <==> Gives(t, event, m, role)
  {
    var i := FindMember(t.members, m);
    if i < |t.members| {
      assert t.members[i] == TeamMember(m, t.members[i].role);
    }
  }

  /** The i-th team gives the role, no team before it as good a one and no team a better one. */
  ghost predicate FirstBest(ts: seq<Team>, event: set<Id>, m: Id, b: Best, i: int) {
    && b.Best? && 0 <= i < |ts| && RoleIn(ts[i], event, m) == Some(b.role) && ts[i].name == b.team
    && forall j :: 0 <= j < |ts| ==> LevelFrom(RoleIn(ts[j], event, m), AccessLevel(b.role) + if j < i then 1 else 0)
  }

  /** A role, if there is one, has at least this level. */
  ghost predicate LevelFrom(r: Option<Role>, level: int) {
    r.Some? ==> AccessLevel(r.value) >= level
  }

  lemma StaysFirstBest(ts: seq<Team>, event: set<Id>, m: Id, b: Best, i: int)
    requires ts != [] && FirstBest(ts[..|ts| - 1], event, m, b, i) && LevelFrom(RoleIn(ts[|ts| - 1], event, m), AccessLevel(b.role))
    ensures FirstBest(ts, event, m, b, i)
  {
    assert forall j :: 0 <= j < |ts| - 1 ==> ts[..|ts| - 1][j] == ts[j];
  }

  lemma BecomesFirstBest(ts: seq<Team>, event: set<Id>, m: Id, b: Best)
    requires ts != [] && b.Best? && RoleIn(ts[|ts| - 1], event, m) == Some(b.role) && ts[|ts| - 1].name == b.team
    requires var before := ts[..|ts| - 1];
             forall j :: 0 <= j < |before| ==> LevelFrom(RoleIn(before[j], event, m), AccessLevel(b.role) + 1)
    ensures FirstBest(ts, event, m, b, |ts| - 1)
  {
    assert forall j :: 0 <= j < |ts| - 1 ==> ts[..|ts| - 1][j] == ts[j];
  }

  lemma LevelsFrom(ts: seq<Team>, event: set<Id>, m: Id, b: Best, i: int, level: int)
    requires FirstBest(ts, event, m, b, i) && level <= AccessLevel(b.role)
    ensures forall j :: 0 <= j < |ts| ==> LevelFrom(RoleIn(ts[j], event, m), level)
  {
  }

  /** The answer is the first of the most powerful roles that the teams of the event give, and none
      exactly when no team gives one. */
  lemma {:induction false} BestIsFirst(ts: seq<Team>, event: set<Id>, m: Id)
    ensures var b := BestOf(ts, event, m);
            && (b.NoBest? <==> forall j :: 0 <= j < |ts| ==> RoleIn(ts[j], event, m).None?)
            && (b.Best? ==> exists i :: FirstBest(ts, event, m, b, i))
    decreases |ts|
  {
    if ts == [] {
      assert BestOf(ts, event, m) == NoBest;
    } else {
      var n := |ts| - 1;
      var b, b' := BestOf(ts[..n], event, m), BestOf(ts, event, m);
      BestIsFirst(ts[..n], event, m);
      assert ts == ts[..n] + [ts[n]];
      BestOfOneMore(ts[..n], ts[n], event, m);
      if b'.NoBest? {
        assert forall j :: 0 <= j < n ==> ts[..n][j] == ts[j];
      } else if b' == b {
        var i :| FirstBest(ts[..n], event, m, b, i);
        StaysFirstBest(ts, event, m, b, i);
      } else {
        if b.Best? {
          var i :| FirstBest(ts[..n], event, m, b, i);
          LevelsFrom(ts[..n], event, m, b, i, AccessLevel(b'.role) + 1);
        }
        BecomesFirstBest(ts, event, m, b');
      }
    }
  }

  /** The members with the sinfo id that have a valid role in some team of the event. */
  ghost function Holders(ps: seq<Person>, ts: seq<Team>, event: set<Id>): (hs: seq<Person>)
    ensures forall h :: h in hs ==> h in ps
  {
    if ps == [] then []
    else Holders(ps[..|ps| - 1], ts, event)
         + if HasEntry(ts, event, ps[|ps| - 1].id, AccessLevel(Member)) then [ps[|ps| - 1]] else []
  }

  lemma {:induction false} CredentialsCountHolders(ps: seq<Person>, ts: seq<Team>, event: set<Id>, reach: Id -> bool)
    requires AllDistinct(ts) && TeamsReadable(ps, reach)
    ensures var hs, r := Holders(ps, ts, event), CredentialsFor(ps, ts, event, reach);
            && (r == Ok(None) <==> |hs| == 0)
            && (r == Err(Duplicate) <==> |hs| > 1)
            && (|hs| == 1 ==> var b := BestOf(ts, event, hs[0].id);
                              b.Best? && r == Ok(Some(Credentials(hs[0].id, hs[0].sinfoId, b.role, b.team))))
    decreases |ps|
  {
    if ps == [] {
    } else {
      CredentialsCountHolders(ps[..|ps| - 1], ts, event, reach);
      BestIsBest(ts, event, ps[|ps| - 1].id, AccessLevel(Member));
      BestHasLevel(ts, event, ps[|ps| - 1].id);
    }
  }

  lemma {:induction false} CredentialsNeedAnswers(ps: seq<Person>, ts: seq<Team>, event: set<Id>, reach: Id -> bool)
    ensures CredentialsFor(ps, ts, event, reach).Ok? ==> TeamsReadable(ps, reach)
    decreases |ps|
  {
    if ps == [] {
    } else {
      CredentialsNeedAnswers(ps[..|ps| - 1], ts, event, reach);
    }
  }

  /** The i-th member has the sinfo id and a valid role in some team of the event. */
  ghost predicate HoldsAt(people: seq<Person>, sinfoId: string, ts: seq<Team>, event: set<Id>, i: int) {
    0 <= i < |people| && people[i].sinfoId == sinfoId && HasEntry(ts, event, people[i].id, AccessLevel(Member))
  }

  ghost predicate OnlyHolder(people: seq<Person>, sinfoId: string, ts: seq<Team>, event: set<Id>, i: int) {
    HoldsAt(people, sinfoId, ts, event, i) && forall j :: HoldsAt(people, sinfoId, ts, event, j) ==> j == i
  }

  ghost predicate TwoHolders(people: seq<Person>, sinfoId: string, ts: seq<Team>, event: set<Id>) {
    exists i, j :: i < j && HoldsAt(people, sinfoId, ts, event, i) && HoldsAt(people, sinfoId, ts, event, j)
  }

  /** As many members are found to hold a role as there are positions of them, up to two. */
  ghost predicate HoldersRight(hs: seq<Person>, people: seq<Person>, sinfoId: string, ts: seq<Team>, event: set<Id>) {
    && (|hs| == 0 ==> forall i :: !HoldsAt(people, sinfoId, ts, event, i))
    && (|hs| == 1 ==> exists i :: OnlyHolder(people, sinfoId, ts, event, i) && hs[0] == people[i])
    && (|hs| > 1 ==> TwoHolders(people, sinfoId, ts, event))
  }

  lemma {:induction false} HoldersAre(people: seq<Person>, sinfoId: string, ts: seq<Team>, event: set<Id>)
    ensures HoldersRight(Holders(BySinfoId(people, sinfoId), ts, event), people, sinfoId, ts, event)
  {
    if people == [] {
    } else {
      var n := |people| - 1;
      HoldersAre(people[..n], sinfoId, ts, event);
      HoldersOneMore(people, sinfoId, ts, event);
      HoldersStayRight(Holders(BySinfoId(people[..n], sinfoId), ts, event), people, sinfoId, ts, event);
    }
  }

  lemma HoldersStayRight(hs: seq<Person>, people: seq<Person>, sinfoId: string, ts: seq<Team>, event: set<Id>)
    requires people != [] && HoldersRight(hs, people[..|people| - 1], sinfoId, ts, event)
    ensures var n := |people| - 1;
            HoldersRight(hs + if HoldsAt(people, sinfoId, ts, event, n) then [people[n]] else [], people, sinfoId, ts, event)
  {
    var n := |people| - 1;
    var before := people[..n];
    assert forall i :: HoldsAt(before, sinfoId, ts, event, i) <==> i != n && HoldsAt(people, sinfoId, ts, event, i);
    if |hs| == 0 && HoldsAt(people, sinfoId, ts, event, n) {
      assert OnlyHolder(people, sinfoId, ts, event, n);
    } else if |hs| == 1 {
      var i :| OnlyHolder(before, sinfoId, ts, event, i) && hs[0] == before[i];
      assert HoldsAt(people, sinfoId, ts, event, i);
      assert !HoldsAt(people, sinfoId, ts, event, n) ==> OnlyHolder(people, sinfoId, ts, event, i);
    } else if |hs| > 1 {
      var i, j :| i < j && HoldsAt(before, sinfoId, ts, event, i) && HoldsAt(before, sinfoId, ts, event, j);
      assert HoldsAt(people, sinfoId, ts, event, i) && HoldsAt(people, sinfoId, ts, event, j);
    }
  }

  lemma HoldersOneMore(people: seq<Person>, sinfoId: string, ts: seq<Team>, event: set<Id>)
    requires people != []
    ensures var n := |people| - 1;
            Holders(BySinfoId(people, sinfoId), ts, event)
            == Holders(BySinfoId(people[..n], sinfoId), ts, event) + if HoldsAt(people, sinfoId, ts, event, n) then [people[n]] else []
  {
    var n := |people| - 1;
    var ps := BySinfoId(people[..n], sinfoId);
    assert (ps + [people[n]])[..|ps|] == ps && ps + [] == ps;
  }

  lemma {:induction false} NoneFoundIff(people: seq<Person>, sinfoId: string)
    ensures BySinfoId(people, sinfoId) == [] <==> forall i :: 0 <= i < |people| ==> people[i].sinfoId != sinfoId
  {
    if people == [] {
    } else {
      var n := |people| - 1;
      NoneFoundIff(people[..n], sinfoId);
      assert forall i :: 0 <= i < n ==> people[..n][i] == people[i];
    }
  }

  lemma FoundAre(people: seq<Person>, sinfoId: string, p: Person)
    ensures p in BySinfoId(people, sinfoId) <==> p in people && p.sinfoId == sinfoId
  {
    BySinfoIdCount(people, sinfoId, p);
  }

  /** Every query that the call makes is answered. */
  ghost predicate AllAnswered(answers: Answers, sinfoId: string) {
    && answers.event.Some? && answers.people.Some?
    && forall p :: p in answers.people.value && p.sinfoId == sinfoId ==> answers.teams(p.id)
  }

  ghost predicate TeamsReadable(ps: seq<Person>, reach: Id -> bool) {
    forall i :: 0 <= i < |ps| ==> reach(ps[i].id)
  }

  lemma AnsweredForFound(answers: Answers, sinfoId: string)
    requires answers.event.Some? && answers.people.Some?
    ensures AllAnswered(answers, sinfoId) <==> TeamsReadable(BySinfoId(answers.people.value, sinfoId), answers.teams)
  {
    var people := answers.people.value;
    var ps := BySinfoId(people, sinfoId);
    forall p ensures p in ps <==> p in people && p.sinfoId == sinfoId {
      FoundAre(people, sinfoId, p);
    }
    assert forall p :: p in ps ==> exists i :: 0 <= i < |ps| && ps[i] == p;
  }

  /** With every query answered: which answer each collection of members gets. */
  ghost predicate Decided(r: Result<Credentials, AuthError>, people: seq<Person>, sinfoId: string, ts: seq<Team>, event: set<Id>) {
    && (r == Err(NotFound) <==> forall i :: 0 <= i < |people| ==> people[i].sinfoId != sinfoId)
    && (r == Err(Duplicate) <==> TwoHolders(people, sinfoId, ts, event))
    && (r == Err(NoTeam) <==> (exists i :: 0 <= i < |people| && people[i].sinfoId == sinfoId)
                              && forall i :: !HoldsAt(people, sinfoId, ts, event, i))
    && (r.Ok? <==> exists i :: OnlyHolder(people, sinfoId, ts, event, i))
    && (r.Ok? ==> exists i :: OnlyHolder(people, sinfoId, ts, event, i) && r.value.id == people[i].id)
    && (r.Ok? ==> r.value.sinfoId == sinfoId)
    && r != Err(QueryFailed)
  }

  lemma CredentialsDecided(ts: seq<Team>, answers: Answers, sinfoId: string)
    requires AllDistinct(ts) && AllAnswered(answers, sinfoId)
    ensures Decided(AuthCredentials(ts, answers, sinfoId), answers.people.value, sinfoId, ts, answers.event.value)
  {
    var people, event := answers.people.value, answers.event.value;
    var ps := BySinfoId(people, sinfoId);
    var hs := Holders(ps, ts, event);
    AnsweredForFound(answers, sinfoId);
    NoneFoundIff(people, sinfoId);
    HoldersAre(people, sinfoId, ts, event);
    if ps == [] {
    } else {
      CredentialsCountHolders(ps, ts, event, answers.teams);
    }
  }

  /** Credentials are issued exactly when every query is answered and one member with the sinfo id has
      a valid role in a team of the event; they are that member's, and they grant a required role
      exactly when some entry of the member in a team of the event has its access level or a more
      powerful one. */
  lemma CredentialsAreRight(ts: seq<Team>, answers: Answers, sinfoId: string, required: Role)
    requires AllDistinct(ts)
    ensures var r := AuthCredentials(ts, answers, sinfoId);
            && (r.Ok? ==> AllAnswered(answers, sinfoId))
            && (AllAnswered(answers, sinfoId) ==> Decided(r, answers.people.value, sinfoId, ts, answers.event.value))
            && (r.Ok? ==> (CheckAccessLevel(required, r.value)
                           <==> !required.Other? && HasEntry(ts, answers.event.value, r.value.id, AccessLevel(required))))
            && (r.Ok? ==> exists i :: FirstBest(ts, answers.event.value, r.value.id, Best(r.value.role, r.value.team), i))
  {
    if answers.event.Some? && answers.people.Some? {
      var ps, event := BySinfoId(answers.people.value, sinfoId), answers.event.value;
      CredentialsNeedAnswers(ps, ts, event, answers.teams);
      AnsweredForFound(answers, sinfoId);
      if AllAnswered(answers, sinfoId) {
        CredentialsDecided(ts, answers, sinfoId);
        CredentialsCountHolders(ps, ts, event, answers.teams);
        var hs := Holders(ps, ts, event);
        if |hs| == 1 {
          BestIsBest(ts, event, hs[0].id, AccessLevel(required));
          BestHasLevel(ts, event, hs[0].id);
          BestIsFirst(ts, event, hs[0].id);
        }
      }
    }
  }

  /** Only the first entry of a team counts: with a member listed twice a more powerful second
      entry is not seen, so the distinct lists are needed. */
  lemma RepeatedMemberLosesAccess(m: Id, t: Team, event: set<Id>)
    requires t.members == [TeamMember(m, Member), TeamMember(m, Admin)] && t.id in event
    ensures HasEntry([t], event, m, AccessLevel(Admin))
    ensures BestOf([t], event, m) == Best(Member, t.name)
  {
    assert t.members[1] in t.members && t in [t];
    assert FindMember(t.members, m) == 0;
    BestOfOneMore([], t, event, m);
    assert [] + [t] == [t];
  }
}
