/**
  Bulk drafting with one re-authentication: createBulkDraftEmails of composables/useGmailDrafts.ts
  and sendProcessedEmails of composables/useBulkEmails.ts. What the mail server answers to each
  attempt is a parameter.
*/
module BulkDrafts {
  import opened Wrappers
  import opened Search

  /** The end of one createDraftEmail call. The server may have stored a draft although the answer
      could not be read; an expired session stores none. */
  datatype Attempt =
    | Drafted(response: int)
    | StoredUnreadable(error: string)
    | Rejected(error: string)
    | AuthFailed(error: string)

  /** How many attempts come before the first expired session. */
  function Completed(os: seq<Attempt>): (k: nat)
    ensures k <= |os| && (k < |os| ==> os[k].AuthFailed?)
    ensures forall i :: 0 <= i < k ==> !os[i].AuthFailed?
  {
    IndexOf(os, (o: Attempt) => o.AuthFailed?)
  }

  function Successes<E>(emails: seq<E>, os: seq<Attempt>): (out: seq<(E, int)>)
    requires |emails| == |os|
  {
    if os == [] then []
    else
      var n := |os| - 1;
      Successes(emails[..n], os[..n]) + if os[n].Drafted? then [(emails[n], os[n].response)] else []
  }

  function Failures<E>(emails: seq<E>, os: seq<Attempt>): (out: seq<(E, string)>)
    requires |emails| == |os|
  {
    if os == [] then []
    else
      var n := |os| - 1;
      Failures(emails[..n], os[..n]) + if os[n].Drafted? then [] else [(emails[n], os[n].error)]
  }

  lemma {:induction false} SuccessesConcat<E>(e: seq<E>, o: seq<Attempt>, e': seq<E>, o': seq<Attempt>)
    requires |e| == |o| && |e'| == |o'|
    ensures Successes(e + e', o + o') == Successes(e, o) + Successes(e', o')
    decreases |o'|
  {
    if o' == [] {
      assert e + e' == e && o + o' == o;
    } else {
      var n := |o'| - 1;
      SuccessesConcat(e, o, e'[..n], o'[..n]);
      assert (e + e')[..|e + e'| - 1] == e + e'[..n] && (o + o')[..|o + o'| - 1] == o + o'[..n];
    }
  }

  lemma {:induction false} CountsAddUp<E>(emails: seq<E>, os: seq<Attempt>)
    requires |emails| == |os|
    ensures |Successes(emails, os)| + |Failures(emails, os)| == |os|
  {
    if os == [] {
    } else {
      CountsAddUp(emails[..|os| - 1], os[..|os| - 1]);
    }
  }

  /** The entry that the outcome of one more email makes. */
  lemma OneMoreResult<E>(emails: seq<E>, os: seq<Attempt>, email: E, o: Attempt)
    requires |emails| == |os|
    ensures Successes<E>([], []) == [] && Failures<E>([], []) == []
    ensures var more, all := emails + [email], os + [o];
            && Successes(more, all) == Successes(emails, os) + (if o.Drafted? then [(email, o.response)] else [])
            && Failures(more, all) == Failures(emails, os)
               + if o.StoredUnreadable? || o.Rejected? || o.AuthFailed? then [(email, o.error)] else []
  {
    assert (emails + [email])[..|os|] == emails && (os + [o])[..|os|] == os;
  }

  ghost predicate Stores(o: Attempt) {
    o.Drafted? || o.StoredUnreadable?
  }

  datatype BulkResult<E> = BulkResult(success: seq<(E, int)>, failed: seq<(E, string)>)

  /** What createBulkDraftEmails returns: it stops after the first expired session. */
  function Bulk<E>(emails: seq<E>, os: seq<Attempt>): BulkResult<E>
    requires |emails| == |os|
  {
    FirstOf(emails, os, Tried(os))
  }

  function FirstOf<E>(emails: seq<E>, os: seq<Attempt>, n: nat): BulkResult<E>
    requires n <= |emails| == |os|
  {
    BulkResult(Successes(emails[..n], os[..n]), Failures(emails[..n], os[..n]))
  }

  /** The sum that the progress callback of the retry adds to the counter. */
  function Triangle(k: nat): nat {
    if k == 0 then 0 else Triangle(k - 1) + k
  }

  function AddEntry<E>(res: BulkResult<E>, email: E, o: Attempt): BulkResult<E> {
    if o.Drafted? then res.(success := res.success + [(email, o.response)]) else res.(failed := res.failed + [(email, o.error)])
  }

  /** How many emails one round gets to: it stops after the first expired session. */
  function Tried(os: seq<Attempt>): (n: nat)
    ensures n <= |os|
  {
    if Completed(os) < |os| then Completed(os) + 1 else |os|
  }

  /** The first n calls of a round whose first email has the position `base`. */
  function Round(base: nat, os: seq<Attempt>, n: nat): (log: seq<(nat, Attempt)>)
    requires n <= |os|
    ensures |log| == n && forall i :: 0 <= i < n ==> log[i] == (base + i, os[i])
  {
    seq(n, i requires 0 <= i < n => (base + i, os[i]))
  }

  /** Every call that is made: the first round and, after a successful re-authentication, the
      retry of the emails that were not completed. */
  function Calls(first: seq<Attempt>, reauthSuccess: bool, second: seq<Attempt>): seq<(nat, Attempt)>
    requires |first| == |second|
  {
    var k := Completed(first);
    var again := second[..|first| - k];
    if k < |first| && reauthSuccess
    then Round(0, first, Tried(first)) + Round(k, again, Tried(again))
    else Round(0, first, Tried(first))
  }

  /** The calls are for the emails in turn up to the first expired session and then, after a successful
      re-authentication, from the email that met it up to the next one. */
  lemma CallsAreInOrder(first: seq<Attempt>, reauthSuccess: bool, second: seq<Attempt>)
    requires |first| == |second|
    ensures var n, k, log := |first|, Completed(first), Calls(first, reauthSuccess, second);
            && (k == n ==> |log| == n)
            && (k < n && !reauthSuccess ==> |log| == k + 1)
            && (forall i :: 0 <= i < |log| && i <= k ==> log[i] == (i, first[i]))
            && (k < n && reauthSuccess ==>
                  && k + 1 < |log| <= n + 1
                  && (forall i :: k < i < |log| ==> log[i] == (i - 1, second[i - 1 - k]))
                  && (forall i :: k < i < |log| - 1 ==> !log[i].1.AuthFailed?)
                  && (|log| < n + 1 ==> log[|log| - 1].1.AuthFailed?))
  {
  }

  /** The progress counter after k completed emails: the callback stores their number, and in the
      retry it adds it. */
  function Counted(retry: bool, before: nat, k: nat): nat {
    if retry then before + Triangle(k) else if k == 0 then before else k
  }

  lemma CountedOneMore(retry: bool, before: nat, k: nat)
    ensures Counted(retry, before, k + 1) == if retry then Counted(retry, before, k) + (k + 1) else k + 1
  {
  }

  class BulkEmails<E> {
    var needsReauth: bool
    var error: string
    var sentCount: nat
    /** Every call of CreateDraftEmail so far, with the position of its email. */
    ghost var calls: seq<(nat, Attempt)>

    constructor ()
      ensures !needsReauth && sentCount == 0 && calls == []
    {
      needsReauth, error, sentCount, calls := false, "", 0, [];
    }

    /** One call to the mail server, which answers `o`. */
    method CreateDraftEmail(ghost position: nat, o: Attempt) returns (response: Option<int>)
      modifies `needsReauth, `error, `calls
      ensures calls == old(calls) + [(position, o)]
      ensures needsReauth == o.AuthFailed?
      ensures response == if o.Drafted? then Some(o.response) else None
      ensures !o.Drafted? ==> error == o.error
    {
      calls := calls + [(position, o)];
      needsReauth := false;
      match o {
        case Drafted(r) => response := Some(r);
        case StoredUnreadable(e) => error, response := e, None;
        case Rejected(e) => error, response := e, None;
        case AuthFailed(e) => error, needsReauth, response := e, true, None;
      }
    }

    /** One round. The first of its emails has the position `base` in the whole list. */
    method CreateBulkDraftEmails(emails: seq<E>, os: seq<Attempt>, retry: bool, ghost base: nat)
      returns (res: BulkResult<E>)
      requires |emails| == |os|
      modifies this
      ensures res == Bulk(emails, os)
      ensures calls == old(calls) + Round(base, os, Tried(os))
      ensures needsReauth == if emails == [] then old(needsReauth) else Completed(os) < |os|
      ensures sentCount == Counted(retry, old(sentCount), Completed(os))
    {
      res := BulkResult([], []);
      var i := 0;
      while i < |emails|
        invariant i <= |emails|
        invariant forall j :: 0 <= j < i ==> !os[j].AuthFailed?
        invariant res == FirstOf(emails, os, i)
        invariant calls == old(calls) + Round(base, os, i)
        invariant needsReauth == if i == 0 then old(needsReauth) else false
        invariant sentCount == Counted(retry, old(sentCount), i)
      {
        LastAttempt(emails, os, i);
        RoundOneMore(base, os, i, old(calls));
        res := TryNext(emails, os, i, base, res);
        if needsReauth {
          return;
        }
        CountedOneMore(retry, old(sentCount), i);
        sentCount := if retry then sentCount + (i + 1) else i + 1;
        i := i + 1;
      }
      assert Completed(os) == i;
    }

    method TryNext(emails: seq<E>, os: seq<Attempt>, i: nat, ghost base: nat, res: BulkResult<E>) returns (out: BulkResult<E>)
      requires i < |emails| == |os| && res == FirstOf(emails, os, i)
      modifies `needsReauth, `error, `calls
      ensures out == FirstOf(emails, os, i + 1)
      ensures needsReauth == os[i].AuthFailed? && calls == old(calls) + [(base + i, os[i])]
    {
      OneMoreAttempt(emails, os, i);
      out := TryEmail(emails[i], os[i], base + i, res);
    }

    /** One email of a round: its entry in the result. */
    method TryEmail(email: E, o: Attempt, ghost position: nat, res: BulkResult<E>) returns (out: BulkResult<E>)
      modifies `needsReauth, `error, `calls
      ensures out == AddEntry(res, email, o) && needsReauth == o.AuthFailed? && calls == old(calls) + [(position, o)]
    {
      var response := CreateDraftEmail(position, o);
      if response.Some? {
        out := res.(success := res.success + [(email, response.value)]);
      } else {
        out := res.(failed := res.failed + [(email, error)]);
      }
    }

    /** sendProcessedEmails once the drafts are prepared and the account is connected. `first` and
        `second` are the answers before and after the re-authentication. None stands for an error,
        in which case the drafts of the first round stay on the server. */
    method SendProcessedEmails(emails: seq<E>, first: seq<Attempt>, reauthSuccess: bool, second: seq<Attempt>)
      returns (r: Option<BulkResult<E>>)
      requires |emails| == |first| == |second|
      modifies this
      ensures r == Send(emails, first, reauthSuccess, second)
      ensures r.Some? ==> sentCount == Shown(emails, first, second)
      ensures calls == old(calls) + Calls(first, reauthSuccess, second)
      ensures StoredOnce(calls[|old(calls)|..])
    {
      r := BothRounds(emails, first, reauthSuccess, second);
      NoEmailIsStoredTwice(first, reauthSuccess, second);
      assert calls[|old(calls)|..] == Calls(first, reauthSuccess, second);
    }

    method BothRounds(emails: seq<E>, first: seq<Attempt>, reauthSuccess: bool, second: seq<Attempt>)
      returns (r: Option<BulkResult<E>>)
      requires |emails| == |first| == |second|
      modifies this
      ensures r == Send(emails, first, reauthSuccess, second)
      ensures r.Some? ==> sentCount == Shown(emails, first, second)
      ensures calls == old(calls) + Calls(first, reauthSuccess, second)
    {
      sentCount := 0;
      if |emails| == 0 {
        assert Calls(first, reauthSuccess, second) == [];
        return None;
      }
      var bulk := CreateBulkDraftEmails(emails, first, false, 0);
      if needsReauth {
        if !reauthSuccess {
          return None;
        }
        var remaining := emails[sentCount..];
        assert sentCount == Completed(first);
        if |remaining| > 0 {
          var again := CreateBulkDraftEmails(remaining, second[..|remaining|], true, sentCount);
          LogTwice(old(calls), Round(0, first, Tried(first)), Round(Completed(first), second[..|remaining|], Tried(second[..|remaining|])));
          bulk := BulkResult(bulk.success + again.success, bulk.failed + again.failed);
        }
      }
      r := Some(bulk);
    }
  }

  lemma LogTwice(before: seq<(nat, Attempt)>, one: seq<(nat, Attempt)>, two: seq<(nat, Attempt)>)
    ensures before + one + two == before + (one + two)
  {
  }

  lemma RoundOneMore(base: nat, os: seq<Attempt>, n: nat, before: seq<(nat, Attempt)>)
    requires n < |os|
    ensures before + Round(base, os, n + 1) == before + Round(base, os, n) + [(base + n, os[n])]
  {
  }

  lemma LastAttempt<E>(emails: seq<E>, os: seq<Attempt>, i: nat)
    requires i < |emails| == |os| && forall j :: 0 <= j < i ==> !os[j].AuthFailed?
    ensures os[i].AuthFailed? ==>
              Completed(os) == i && Bulk(emails, os) == FirstOf(emails, os, i + 1)
  {
    if os[i].AuthFailed? {
      assert Completed(os) == i;
    }
  }

  lemma OneMoreAttempt<E>(emails: seq<E>, os: seq<Attempt>, i: nat)
    requires i < |emails| == |os|
    ensures FirstOf(emails, os, i + 1) == AddEntry(FirstOf(emails, os, i), emails[i], os[i])
  {
    assert emails[..i + 1][..i] == emails[..i] && os[..i + 1][..i] == os[..i];
  }

  function Send<E>(emails: seq<E>, first: seq<Attempt>, reauthSuccess: bool, second: seq<Attempt>): Option<BulkResult<E>>
    requires |emails| == |first| == |second|
  {
    var k := Completed(first);
    var one := Bulk(emails, first);
    if emails == [] then None
    else if k == |emails| then Some(one)
    else if !reauthSuccess then None
    else
      var two := Bulk(emails[k..], second[..|emails| - k]);
      Some(BulkResult(one.success + two.success, one.failed + two.failed))
  }

  /** The progress that is on display at the end. */
  function Shown<E>(emails: seq<E>, first: seq<Attempt>, second: seq<Attempt>): nat
    requires |emails| == |first| == |second|
  {
    var k := Completed(first);
    if k == |emails| then k else k + Triangle(Completed(second[..|emails| - k]))
  }

  /** The decisive attempt of each email that was reached: the first round up to the expired
      session, then the second round up to its own. */
  function Decisive<E>(emails: seq<E>, first: seq<Attempt>, second: seq<Attempt>): (os: seq<Attempt>)
    requires |emails| == |first| == |second|
    ensures |os| <= |emails| && forall i :: 0 <= i < |os| ==> !os[i].AuthFailed?
  {
    var k := Completed(first);
    var again := second[..|emails| - k];
    first[..k] + again[..Completed(again)]
  }

  /** What the result of a round shows is decided by its completed attempts. */
  lemma BulkSuccesses<E>(emails: seq<E>, os: seq<Attempt>)
    requires |emails| == |os|
    ensures var k := Completed(os);
            && Bulk(emails, os).success == Successes(emails[..k], os[..k])
            && Bulk(emails, os).failed ==
               Failures(emails[..k], os[..k]) + if k < |emails| then [(emails[k], os[k].error)] else []
  {
    var k := Completed(os);
    if k < |emails| {
      OneMoreAttempt(emails, os, k);
    }
  }

  /** The successes keep the input order: they are those of one decisive attempt for each email. */
  lemma SuccessesAreDecisive<E>(emails: seq<E>, first: seq<Attempt>, second: seq<Attempt>)
    requires |emails| == |first| == |second|
    requires Send(emails, first, true, second).Some?
    ensures var os := Decisive(emails, first, second);
            Send(emails, first, true, second).value.success == Successes(emails[..|os|], os)
  {
    var k := Completed(first);
    BulkSuccesses(emails, first);
    if k == |emails| {
      assert Decisive(emails, first, second) == first[..k];
    } else {
      var rest, again := emails[k..], second[..|emails| - k];
      BulkSuccesses(rest, again);
      SuccessesOfParts(emails, k, first[..k], again, Completed(again));
    }
  }

  /** The failures are those of the decisive attempts and, after each round that met an expired session,
      an entry for the email that met it. */
  lemma FailedAre<E>(emails: seq<E>, first: seq<Attempt>, second: seq<Attempt>)
    requires |emails| == |first| == |second|
    requires Send(emails, first, true, second).Some?
    ensures var k, n := Completed(first), |emails|; var again := second[..n - k]; var l := Completed(again);
            Send(emails, first, true, second).value.failed ==
            Failures(emails[..k], first[..k])
            + (if k < n then [(emails[k], first[k].error)] else [])
            + Failures(emails[k..][..l], again[..l])
            + if k < n && k + l < n then [(emails[k + l], again[l].error)] else []
  {
    var k := Completed(first);
    BulkSuccesses(emails, first);
    BulkSuccesses(emails[k..], second[..|emails| - k]);
    if k == |emails| {
      assert Completed(second[..0]) == 0;
    }
  }

  /** There is no result exactly when there was nothing to send or the session expired and was not
      renewed. */
  lemma NoResultIff<E>(emails: seq<E>, first: seq<Attempt>, reauthSuccess: bool, second: seq<Attempt>)
    requires |emails| == |first| == |second|
    ensures Send(emails, first, reauthSuccess, second).None? <==>
              emails == [] || (!reauthSuccess && exists i :: 0 <= i < |first| && first[i].AuthFailed?)
    ensures Send(emails, first, reauthSuccess, second).Some? ==>
              Send(emails, first, reauthSuccess, second) == Send(emails, first, true, second)
  {
  }

  lemma SuccessesOfParts<E>(emails: seq<E>, k: nat, os: seq<Attempt>, again: seq<Attempt>, l: nat)
    requires k == |os| && k + |again| == |emails| && l <= |again|
    ensures Successes(emails[..k + l], os + again[..l]) == Successes(emails[..k], os) + Successes(emails[k..][..l], again[..l])
  {
    assert emails[..k + l] == emails[..k] + emails[k..][..l];
    SuccessesConcat(emails[..k], os, emails[k..][..l], again[..l]);
  }

  /** How many times the session expired under the two rounds. */
  function Expired(first: seq<Attempt>, second: seq<Attempt>): nat
    requires |first| == |second|
  {
    var k := Completed(first);
    if k == |first| then 0 else if k + Completed(second[..|first| - k]) == |first| then 1 else 2
  }

  lemma BulkCount<E>(emails: seq<E>, os: seq<Attempt>)
    requires |emails| == |os|
    ensures var k := Completed(os); var r := Bulk(emails, os);
            |r.success| + |r.failed| == k + if k < |os| then 1 else 0
  {
    BulkSuccesses(emails, os);
    CountsAddUp(emails[..Completed(os)], os[..Completed(os)]);
  }

  /** Nothing is lost and nothing invented: successes and failures together are one entry for each
      decisive attempt plus one failure for each expired session, so the email that met the first
      one is reported as failed even when its retry succeeds. */
  lemma EntriesAddUp<E>(emails: seq<E>, first: seq<Attempt>, second: seq<Attempt>)
    requires |emails| == |first| == |second|
    requires Send(emails, first, true, second).Some?
    ensures var r := Send(emails, first, true, second).value;
            |r.success| + |r.failed| == |Decisive(emails, first, second)| + Expired(first, second)
  {
    var k := Completed(first);
    BulkCount(emails, first);
    if k < |emails| {
      BulkCount(emails[k..], second[..|emails| - k]);
    }
  }

  /** The calls that store a draft on the server, read back or not, are for emails in ascending
      position, so no email gets two drafts. */
  ghost predicate StoredOnce(log: seq<(nat, Attempt)>) {
    forall i, j :: 0 <= i < j < |log| && Stores(log[i].1) && Stores(log[j].1) ==> log[i].0 < log[j].0
  }

  lemma RoundStoresOnce(base: nat, os: seq<Attempt>)
    ensures StoredOnce(Round(base, os, Tried(os)))
  {
  }

  /** The only email that is attempted in both rounds met the expired session, which stores
      nothing. */
  lemma NoEmailIsStoredTwice(first: seq<Attempt>, reauthSuccess: bool, second: seq<Attempt>)
    requires |first| == |second|
    ensures StoredOnce(Calls(first, reauthSuccess, second))
  {
    var k := Completed(first);
    var again := second[..|first| - k];
    RoundStoresOnce(0, first);
    RoundStoresOnce(k, again);
    if k < |first| && reauthSuccess {
      var one, two := Round(0, first, Tried(first)), Round(k, again, Tried(again));
      assert forall i :: 0 <= i < |one| && Stores(one[i].1) ==> one[i].0 < k;
      ConcatStoresOnce(one, two, k);
    }
  }

  lemma ConcatStoresOnce(one: seq<(nat, Attempt)>, two: seq<(nat, Attempt)>, k: nat)
    requires StoredOnce(one) && StoredOnce(two)
    requires forall i :: 0 <= i < |one| && Stores(one[i].1) ==> one[i].0 < k
    requires forall j :: 0 <= j < |two| ==> two[j].0 >= k
    ensures StoredOnce(one + two)
  {
  }

  lemma {:induction false} TriangleFacts(k: nat)
    ensures Triangle(k) >= k && (Triangle(k) == k <==> k <= 1)
    ensures 2 * Triangle(k) == k * (k + 1)
  {
    if k == 0 {
    } else {
      TriangleFacts(k - 1);
    }
  }

  /** The displayed progress is the number of completed emails exactly when the retry completed at
      most one, because its callback adds running totals. */
  lemma ProgressIsRightIff<E>(emails: seq<E>, first: seq<Attempt>, second: seq<Attempt>)
    requires |emails| == |first| == |second|
    ensures Shown(emails, first, second) == |Decisive(emails, first, second)| <==>
              |Decisive(emails, first, second)| <= Completed(first) + 1
    ensures Shown(emails, first, second) >= |Decisive(emails, first, second)|
    ensures var k := Completed(first); var l := |Decisive(emails, first, second)| - k;
            2 * Shown(emails, first, second) == 2 * k + l * (l + 1)
  {
    TriangleFacts(Completed(second[..|emails| - Completed(first)]));
  }

  /** Three emails whose session expires at once and that are all drafted in the retry show up as six. */
  lemma ThreeEmailsShowAsSix(emails: seq<int>, first: seq<Attempt>, second: seq<Attempt>)
    requires |emails| == |first| == |second| == 3
    requires first[0].AuthFailed? && forall i :: 0 <= i < 3 ==> second[i].Drafted?
    ensures |Decisive(emails, first, second)| == 3 && Shown(emails, first, second) == 6
  {
    assert Completed(first) == 0 && second[..3] == second && Completed(second) == 3;
    assert Triangle(3) == 6 by {
      assert Triangle(1) == 1 && Triangle(2) == 3;
    }
  }
}
