/**
  The participation state machine, written twice in the repository: models/participationStatus.go
  on the server and dto/index.ts on the client.
*/
module ParticipationStatus {
  import opened Wrappers

  const STATUS_TEXTS: set<string> :=
    {"SUGGESTED", "SELECTED", "ON_HOLD", "CONTACTED", "IN_CONVERSATIONS", "ACCEPTED", "REJECTED", "GIVEN_UP", "ANNOUNCED"}

  type OtherText = t: string | t !in STATUS_TEXTS

  /** `Other` is any text that Parse rejects. */
  datatype Status =
    | Suggested | Selected | OnHold | Contacted | InConversations
    | Accepted | Rejected | GivenUp | Announced
    | Other(text: OtherText)

  datatype StepError = InvalidStep | NoSteps

  function NextStatus(s: Status, step: int): Result<Status, StepError> {
    match s
    case Suggested => if step == 1 then Ok(Selected) else if step == 2 then Ok(OnHold) else Err(InvalidStep)
    case Selected => if step == 1 then Ok(Contacted) else Err(InvalidStep)
    case OnHold => if step == 1 then Ok(Selected) else Err(InvalidStep)
    case Contacted =>
      if step == 1 then Ok(InConversations) else if step == 2 then Ok(Rejected)
      else if step == 3 then Ok(GivenUp) else Err(InvalidStep)
    case InConversations =>
      if step == 1 then Ok(Accepted) else if step == 2 then Ok(Rejected)
      else if step == 3 then Ok(GivenUp) else Err(InvalidStep)
    case Accepted => if step == 1 then Ok(Announced) else Err(InvalidStep)
    case _ => Err(NoSteps)
  }

  datatype ValidStep = ValidStep(step: int, next: Status)

  function ValidSteps(s: Status): seq<ValidStep> {
    match s
    case Suggested => [ValidStep(1, Selected), ValidStep(2, OnHold)]
    case Selected => [ValidStep(1, Contacted)]
    case OnHold => [ValidStep(1, Selected)]
    case Contacted => [ValidStep(1, InConversations), ValidStep(2, Rejected), ValidStep(3, GivenUp)]
    case InConversations => [ValidStep(1, Accepted), ValidStep(2, Rejected), ValidStep(3, GivenUp)]
    case Accepted => [ValidStep(1, Announced)]
    case _ => []
  }

  /** participationNextValues of the client. */
  function ClientNextValues(s: Status): seq<Status> {
    match s
    case Suggested => [Selected, OnHold]
    case Selected => [Contacted]
    case OnHold => [Selected]
    case Contacted => [InConversations, Rejected, GivenUp]
    case InConversations => [Accepted, Rejected, GivenUp]
    case Accepted => [Announced]
    case _ => []
  }

  /** nextParticipationStatus of the client, which stays put on a step that is not valid. */
  function ClientNext(s: Status, step: int): Status {
    match s
    case Suggested => if step == 1 then Selected else if step == 2 then OnHold else s
    case Selected => if step == 1 then Contacted else s
    case OnHold => if step == 1 then Selected else s
    case Contacted => if step == 1 then InConversations else if step == 2 then Rejected else if step == 3 then GivenUp else s
    case InConversations => if step == 1 then Accepted else if step == 2 then Rejected else if step == 3 then GivenUp else s
    case Accepted => if step == 1 then Announced else s
    case _ => s
  }

  /** The server's machine, the server's table and both client forms are one relation. */
  lemma FourFormsAgree(s: Status, step: int, t: Status)
    ensures NextStatus(s, step) == Ok(t) <==> ValidStep(step, t) in ValidSteps(s)
    ensures NextStatus(s, step) == Ok(t) <==> 1 <= step <= |ClientNextValues(s)| && ClientNextValues(s)[step - 1] == t
    ensures NextStatus(s, step) == Ok(t) <==> ClientNext(s, step) == t && t != s
    ensures NextStatus(s, step).Err? <==> ClientNext(s, step) == s
  {
    match s
    case Suggested =>
    case Selected =>
    case OnHold =>
    case Contacted =>
    case InConversations =>
    case Accepted =>
    case _ =>
  }

  /** From where each status is reached, and with which step. */
  lemma ReachedFrom(s: Status, step: int)
    ensures NextStatus(s, step) == Ok(OnHold) <==> s == Suggested && step == 2
    ensures NextStatus(s, step) == Ok(Selected) <==> (s == Suggested || s == OnHold) && step == 1
    ensures NextStatus(s, step) == Ok(Contacted) <==> s == Selected && step == 1
    ensures NextStatus(s, step) == Ok(InConversations) <==> s == Contacted && step == 1
    ensures NextStatus(s, step) == Ok(Accepted) <==> s == InConversations && step == 1
    ensures NextStatus(s, step) == Ok(Announced) <==> s == Accepted && step == 1
    ensures NextStatus(s, step) == Ok(Rejected) <==> (s == Contacted || s == InConversations) && step == 2
    ensures NextStatus(s, step) == Ok(GivenUp) <==> (s == Contacted || s == InConversations) && step == 3
    ensures NextStatus(s, step) != Ok(Suggested)
    ensures NextStatus(s, step) == Err(NoSteps) <==> s in {Rejected, GivenUp, Announced} || s.Other?
  {
  }

  /** The variable that Next and Parse write through. */
  class StatusCell {
    var status: Status

    constructor (s: Status)
      ensures status == s
    {
      status := s;
    }

    method Next(step: int) returns (e: Option<StepError>)
      modifies this
      ensures match NextStatus(old(status), step)
              case Ok(t) => e == None && status == t
              case Err(x) => e == Some(x) && status == old(status)
    {
      e := None;
      match status {
        case Suggested =>
          if step == 1 { status := Selected; } else if step == 2 { status := OnHold; } else { e := Some(InvalidStep); }
        case Selected =>
          if step == 1 { status := Contacted; } else { e := Some(InvalidStep); }
        case OnHold =>
          if step == 1 { status := Selected; } else { e := Some(InvalidStep); }
        case Contacted =>
          if step == 1 { status := InConversations; } else if step == 2 { status := Rejected; }
          else if step == 3 { status := GivenUp; } else { e := Some(InvalidStep); }
        case InConversations =>
          if step == 1 { status := Accepted; } else if step == 2 { status := Rejected; }
          else if step == 3 { status := GivenUp; } else { e := Some(InvalidStep); }
        case Accepted =>
          if step == 1 { status := Announced; } else { e := Some(InvalidStep); }
        case _ => e := Some(NoSteps);
      }
    }
  }

  // ---- runs ----

  /** Where a sequence of successful steps leads, None if one of them fails. */
  function Walk(s: Status, steps: seq<int>): Option<Status>
    decreases |steps|
  {
    if steps == [] then Some(s)
    else
      var r := NextStatus(s, steps[0]);
      if r.Ok? then Walk(r.value, steps[1..]) else None
  }

  function Rank(s: Status): nat {
    match s
    case Suggested => 6
    case OnHold => 5
    case Selected => 4
    case Contacted => 3
    case InConversations => 2
    case Accepted => 1
    case _ => 0
  }

  function Ones(n: nat): (s: seq<int>)
    ensures |s| == n
  {
    if n == 0 then [] else [1] + Ones(n - 1)
  }

  /** Every successful step lowers the rank, so a run has at most as many steps as its start has. */
  lemma {:induction false} WalkLowersRank(s: Status, steps: seq<int>)
    requires Walk(s, steps).Some?
    ensures Rank(Walk(s, steps).value) + |steps| <= Rank(s)
    decreases |steps|
  {
    if steps == [] {
    } else {
      WalkLowersRank(NextStatus(s, steps[0]).value, steps[1..]);
    }
  }

  /** How many first steps lead to ANNOUNCED; SUGGESTED has a second path through ON_HOLD. */
  lemma {:induction false} PathsToAnnounced(s: Status, steps: seq<int>)
    ensures Walk(s, steps) == Some(Announced) <==>
              match s
              case Announced => steps == []
              case Accepted => steps == Ones(1)
              case InConversations => steps == Ones(2)
              case Contacted => steps == Ones(3)
              case Selected => steps == Ones(4)
              case OnHold => steps == Ones(5)
              case Suggested => steps == Ones(5) || steps == [2] + Ones(5)
              case _ => false
    decreases |steps|
  {
    if steps == [] {
    } else {
      assert steps == [steps[0]] + steps[1..];
      if NextStatus(s, steps[0]).Ok? {
        PathsToAnnounced(NextStatus(s, steps[0]).value, steps[1..]);
      }
    }
  }

  lemma FiveOnes()
    ensures Ones(5) == [1, 1, 1, 1, 1] && [2] + Ones(5) == [2, 1, 1, 1, 1, 1]
  {
    assert Ones(1) == [1] && Ones(2) == [1, 1] && Ones(3) == [1, 1, 1] && Ones(4) == [1, 1, 1, 1];
  }

  /** From SUGGESTED a run has at most six steps, and exactly two runs, one of them with six
      steps, reach ANNOUNCED; both pass through ACCEPTED with their last step. */
  lemma RunsFromSuggested(steps: seq<int>)
    requires Walk(Suggested, steps).Some?
    ensures |steps| <= 6
    ensures Walk(Suggested, steps) == Some(Announced) <==> steps == [1, 1, 1, 1, 1] || steps == [2, 1, 1, 1, 1, 1]
    ensures Walk(Suggested, steps) == Some(Announced) ==>
              steps != [] && Walk(Suggested, steps[..|steps| - 1]) == Some(Accepted)
  {
    WalkLowersRank(Suggested, steps);
    PathsToAnnounced(Suggested, steps);
    FiveOnes();
    if Walk(Suggested, steps) == Some(Announced) {
      LastStep(Suggested, steps);
    }
  }

  /** The only status with a step to ANNOUNCED is ACCEPTED. */
  lemma {:induction false} LastStep(s: Status, steps: seq<int>)
    requires Walk(s, steps) == Some(Announced) && s != Announced
    ensures steps != [] && Walk(s, steps[..|steps| - 1]) == Some(Accepted)
    decreases |steps|
  {
    var t := NextStatus(s, steps[0]).value;
    if t == Announced {
      assert steps[1..] == [] by { WalkLowersRank(t, steps[1..]); }
    } else {
      LastStep(t, steps[1..]);
      assert steps[..|steps| - 1][1..] == steps[1..][..|steps| - 2];
    }
  }

  // ---- the texts ----

  function Text(s: Status): string {
    match s
    case Suggested => "SUGGESTED"
    case Selected => "SELECTED"
    case OnHold => "ON_HOLD"
    case Contacted => "CONTACTED"
    case InConversations => "IN_CONVERSATIONS"
    case Accepted => "ACCEPTED"
    case Rejected => "REJECTED"
    case GivenUp => "GIVEN_UP"
    case Announced => "ANNOUNCED"
    case Other(text) => text
  }

  function Parse(text: string): (r: Option<Status>)
    ensures r.Some? ==> !r.value.Other? && Text(r.value) == text
  {
    if text == "SUGGESTED" then Some(Suggested)
    else if text == "SELECTED" then Some(Selected)
    else if text == "ON_HOLD" then Some(OnHold)
    else if text == "CONTACTED" then Some(Contacted)
    else if text == "IN_CONVERSATIONS" then Some(InConversations)
    else if text == "ACCEPTED" then Some(Accepted)
    else if text == "REJECTED" then Some(Rejected)
    else if text == "GIVEN_UP" then Some(GivenUp)
    else if text == "ANNOUNCED" then Some(Announced)
    else None
  }

  /** Parse reads back the text of every status and nothing else, so a text stands for one status. */
  lemma ParseReadsBack(s: Status)
    ensures Parse(Text(s)) == if s.Other? then None else Some(s)
  {
    var t := Text(s);
    match s
    case Suggested => assert t[0] == 'S' && |t| == 9;
    case Selected => assert t[0] == 'S' && |t| == 8;
    case OnHold => assert t[0] == 'O';
    case Contacted => assert t[0] == 'C';
    case InConversations => assert t[0] == 'I';
    case Accepted => assert t[0] == 'A' && |t| == 8;
    case Rejected => assert t[0] == 'R';
    case GivenUp => assert t[0] == 'G';
    case Announced => assert t[0] == 'A' && |t| == 9;
    case Other(text) => assert text !in STATUS_TEXTS;
  }

  lemma TextTellsApart(s: Status, t: Status)
    ensures Text(s) == Text(t) <==> s == t
  {
    ParseReadsBack(s);
    ParseReadsBack(t);
  }
}
