/**
  What a notification says, when it is valid and what its signature tells apart:
  models/notification.go.
*/
module NotificationModel {
  import opened Wrappers
  import opened Powers

  /** An ObjectID: twelve bytes. */
  type Id = x: int | 0 <= x < 0x1_0000_0000_0000_0000_0000_0000

  const KIND_TEXTS: set<string> :=
    {"CREATED", "UPDATED", "DELETED", "UPDATED_PRIVATE_IMAGE", "UPDATED_PUBLIC_IMAGE",
     "UPLOADED_MEETING_MINUTE", "DELETED_MEETING_MINUTE", "UPDATED_COMPANY_IMAGE",
     "CREATED_PARTICIPATION", "UPDATED_PARTICIPATION", "DELETED_PARTICIPATION",
     "CREATED_PARTICIPATION_PACKAGE", "UPDATED_PARTICIPATION_PACKAGE", "DELETED_PARTICIPATION_PACKAGE",
     "CREATED_PARTICIPATION_BILLING", "DELETED_PARTICIPATION_BILLING", "UPDATED_PARTICIPATION_STATUS", "TAGGED"}

  type OtherText = t: string | t !in KIND_TEXTS

  /** `OtherKind` is any text that is not a kind of the source. */
  datatype Kind =
    | Created | Updated | Deleted
    | UpdatedPrivateImage | UpdatedPublicImage | UploadedMeetingMinute | DeletedMeetingMinute
    | UpdatedCompanyImage
    | CreatedParticipation | UpdatedParticipation | DeletedParticipation
    | CreatedParticipationPackage | UpdatedParticipationPackage | DeletedParticipationPackage
    | CreatedParticipationBilling | DeletedParticipationBilling
    | UpdatedParticipationStatus
    | Tagged
    | OtherKind(text: OtherText)

  function Text(k: Kind): string {
    match k
    case Created => "CREATED"
    case Updated => "UPDATED"
    case Deleted => "DELETED"
    case UpdatedPrivateImage => "UPDATED_PRIVATE_IMAGE"
    case UpdatedPublicImage => "UPDATED_PUBLIC_IMAGE"
    case UploadedMeetingMinute => "UPLOADED_MEETING_MINUTE"
    case DeletedMeetingMinute => "DELETED_MEETING_MINUTE"
    case UpdatedCompanyImage => "UPDATED_COMPANY_IMAGE"
    case CreatedParticipation => "CREATED_PARTICIPATION"
    case UpdatedParticipation => "UPDATED_PARTICIPATION"
    case DeletedParticipation => "DELETED_PARTICIPATION"
    case CreatedParticipationPackage => "CREATED_PARTICIPATION_PACKAGE"
    case UpdatedParticipationPackage => "UPDATED_PARTICIPATION_PACKAGE"
    case DeletedParticipationPackage => "DELETED_PARTICIPATION_PACKAGE"
    case CreatedParticipationBilling => "CREATED_PARTICIPATION_BILLING"
    case DeletedParticipationBilling => "DELETED_PARTICIPATION_BILLING"
    case UpdatedParticipationStatus => "UPDATED_PARTICIPATION_STATUS"
    case Tagged => "TAGGED"
    case OtherKind(text) => text
  }

  /** The kind that a text stands for. */
  function FromText(t: string): Kind {
    match t
    case "CREATED" => Created
    case "UPDATED" => Updated
    case "DELETED" => Deleted
    case "UPDATED_PRIVATE_IMAGE" => UpdatedPrivateImage
    case "UPDATED_PUBLIC_IMAGE" => UpdatedPublicImage
    case "UPLOADED_MEETING_MINUTE" => UploadedMeetingMinute
    case "DELETED_MEETING_MINUTE" => DeletedMeetingMinute
    case "UPDATED_COMPANY_IMAGE" => UpdatedCompanyImage
    case "CREATED_PARTICIPATION" => CreatedParticipation
    case "UPDATED_PARTICIPATION" => UpdatedParticipation
    case "DELETED_PARTICIPATION" => DeletedParticipation
    case "CREATED_PARTICIPATION_PACKAGE" => CreatedParticipationPackage
    case "UPDATED_PARTICIPATION_PACKAGE" => UpdatedParticipationPackage
    case "DELETED_PARTICIPATION_PACKAGE" => DeletedParticipationPackage
    case "CREATED_PARTICIPATION_BILLING" => CreatedParticipationBilling
    case "DELETED_PARTICIPATION_BILLING" => DeletedParticipationBilling
    case "UPDATED_PARTICIPATION_STATUS" => UpdatedParticipationStatus
    case "TAGGED" => Tagged
    case _ => OtherKind(t)
  }

  /** Every kind can be read off its text. */
  lemma TextTellsKinds(k: Kind)
    ensures FromText(Text(k)) == k
  {
  }

  /** CreateNotificationData: what a notification says, apart from its member. */
  datatype Data = Data(
    kind: Kind, post: Option<Id>, thread: Option<Id>, speaker: Option<Id>, company: Option<Id>,
    meeting: Option<Id>, session: Option<Id>, name: string)

  /** SHA-256 in hexadecimal. */
  type Digest = string -> string

  predicate ValidData(d: Data) {
    match d.kind
    case Tagged => d.post.Some?
    case Created => PresentIds(d) != []
    case Updated => PresentIds(d) != []
    case Deleted => PresentIds(d) != []
    case UpdatedCompanyImage => d.speaker.Some?
    case UploadedMeetingMinute => true
    case DeletedMeetingMinute => true
    case CreatedParticipationBilling => true
    case DeletedParticipationBilling => true
    case OtherKind(_) => true
    case _ => d.speaker.Some? || d.company.Some?
  }

  /** What a notification of each kind may not lack. */
  lemma InvalidIff(d: Data)
    ensures !ValidData(d) <==>
              || (d.kind == Tagged && d.post.None?)
              || (d.kind in {Created, Updated, Deleted} && d.post.None? && d.thread.None? && d.speaker.None? && d.company.None?
                  && d.meeting.None? && d.session.None?)
              || (d.kind in {UpdatedPrivateImage, UpdatedPublicImage, CreatedParticipation, UpdatedParticipation,
                             DeletedParticipation, CreatedParticipationPackage, UpdatedParticipationPackage,
                             DeletedParticipationPackage, UpdatedParticipationStatus} && d.speaker.None? && d.company.None?)
              || (d.kind == UpdatedCompanyImage && d.speaker.None?)
  {
  }

  /** The identifiers that are present, in the order in which they are hashed. */
  function PresentIds(d: Data): seq<Id> {
    ToSeq(d.post) + ToSeq(d.thread) + ToSeq(d.speaker) + ToSeq(d.company) + ToSeq(d.meeting) + ToSeq(d.session)
  }

  /** In a notification that has them all. */
  lemma AllPresent(kind: Kind, post: Id, thread: Id, speaker: Id, company: Id, meeting: Id, session: Id, name: string)
    ensures PresentIds(Data(kind, Some(post), Some(thread), Some(speaker), Some(company), Some(meeting), Some(session), name))
            == [post, thread, speaker, company, meeting, session]
  {
  }

  function HexDigit(x: nat): (c: char)
    requires x < 16
    ensures IsHexDigit(c)
  {
    if x < 10 then ('0' as int + x) as char else ('a' as int + x - 10) as char
  }

  predicate IsHexDigit(c: char) {
    '0' <= c <= '9' || 'a' <= c <= 'f'
  }

  /** The last n hexadecimal digits of a number. */
  function HexDigits(x: nat, n: nat): (s: string)
    ensures |s| == n && forall i :: 0 <= i < |s| ==> IsHexDigit(s[i])
  {
    if n == 0 then "" else HexDigits(x / 16, n - 1) + [HexDigit(x % 16)]
  }

  const HEX_LENGTH := 24

  function Hex(x: Id): (s: string)
    ensures |s| == HEX_LENGTH && forall i :: 0 <= i < |s| ==> IsHexDigit(s[i])
  {
    HexDigits(x, HEX_LENGTH)
  }

  function Hexes(ids: seq<Id>): string {
    if ids == [] then "" else Hexes(ids[..|ids| - 1]) + Hex(ids[|ids| - 1])
  }

  function HashedIds(member: Id, d: Data): seq<Id> {
    [member] + ToSeq(d.post) + ToSeq(d.thread) + ToSeq(d.speaker) + ToSeq(d.company) + ToSeq(d.meeting) + ToSeq(d.session)
  }

  /** What the digester is fed. */
  function Fed(member: Id, d: Data): string {
    Text(d.kind) + Hexes(HashedIds(member, d))
  }

  function Signature(member: Id, d: Data, sha: Digest): string {
    sha(Fed(member, d))
  }

  /** The number that hexadecimal digits stand for, the first digit counting most. */
  function HexValue(s: string): nat
    requires forall i :: 0 <= i < |s| ==> IsHexDigit(s[i])
  {
    if s == "" then 0
    else
      var c := s[|s| - 1];
      assert IsHexDigit(c);
      16 * HexValue(s[..|s| - 1]) + if c <= '9' then c as int - '0' as int else c as int - 'a' as int + 10
  }

  lemma {:induction false} DigitsStandFor(x: nat, n: nat)
    requires x < Pow(16, n)
    ensures HexValue(HexDigits(x, n)) == x
  {
    if n > 0 {
      assert HexDigits(x, n)[..n - 1] == HexDigits(x / 16, n - 1);
      DigitsStandFor(x / 16, n - 1);
    }
  }

  /** An identifier is written as the hexadecimal number that it is. */
  lemma HexStandsForTheId(x: Id)
    ensures HexValue(Hex(x)) == x
  {
    SixteenToThe24();
    DigitsStandFor(x, HEX_LENGTH);
  }

  lemma SixteenToThe24()
    ensures Pow(16, 24) == 0x1_0000_0000_0000_0000_0000_0000
  {
    assert Pow(16, 6) == 0x100_0000;
    assert Pow(16, 12) == 0x1_0000_0000_0000;
    assert Pow(16, 18) == 0x100_0000_0000_0000_0000;
  }

  /** One conditional write to the digester, `fed` being what was written before. */
  method Feed(fed: string, x: Option<Id>, ghost kind: string, ghost ids: seq<Id>) returns (out: string)
    requires fed == kind + Hexes(ids)
    ensures out == kind + Hexes(ids + ToSeq(x))
  {
    out := fed;
    if x.Some? {
      out := out + Hex(x.value);
    } else {
      assert ids + [] == ids;
    }
  }

  /** All the writes after the first one. */
  method FeedAll(kind: string, member: Id, d: Data) returns (fed: string)
    ensures fed == kind + Hexes(HashedIds(member, d))
  {
    ghost var ids := [member];
    assert [] + [member] == [member];
    fed := kind + Hex(member);
    fed := Feed(fed, d.post, kind, ids);
    ids := ids + ToSeq(d.post);
    fed := Feed(fed, d.thread, kind, ids);
    ids := ids + ToSeq(d.thread);
    fed := Feed(fed, d.speaker, kind, ids);
    ids := ids + ToSeq(d.speaker);
    fed := Feed(fed, d.company, kind, ids);
    ids := ids + ToSeq(d.company);
    fed := Feed(fed, d.meeting, kind, ids);
    ids := ids + ToSeq(d.meeting);
    fed := Feed(fed, d.session, kind, ids);
  }

  method Hash(member: Id, d: Data, sha: Digest) returns (signature: string)
    ensures signature == Signature(member, d, sha)
  {
    var fed := FeedAll(Text(d.kind), member, d);
    signature := sha(fed);
  }

  // ---- what a signature tells apart ----

  /** No character of the text can be taken for the beginning of an identifier. */
  predicate Plain(text: string) {
    forall i :: 0 <= i < |text| ==> !IsHexDigit(text[i])
  }

  /** Every kind of the source is plain. */
  lemma KindsArePlain(k: Kind)
    requires !k.OtherKind?
    ensures Plain(Text(k))
  {
    match k
    case Created => assert Plain("CREATED");
    case Updated => assert Plain("UPDATED");
    case Deleted => assert Plain("DELETED");
    case Tagged => assert Plain("TAGGED");
    case UpdatedPrivateImage => ImageKindsArePlain(k);
    case UpdatedPublicImage => ImageKindsArePlain(k);
    case UpdatedCompanyImage => ImageKindsArePlain(k);
    case UploadedMeetingMinute => MinuteKindsArePlain(k);
    case DeletedMeetingMinute => MinuteKindsArePlain(k);
    case CreatedParticipation => ParticipationKindsArePlain(k);
    case UpdatedParticipation => ParticipationKindsArePlain(k);
    case DeletedParticipation => ParticipationKindsArePlain(k);
    case CreatedParticipationPackage => PackageKindsArePlain(k);
    case UpdatedParticipationPackage => PackageKindsArePlain(k);
    case DeletedParticipationPackage => RemainingKindsArePlain(k);
    case UpdatedParticipationStatus => RemainingKindsArePlain(k);
    case CreatedParticipationBilling => BillingKindsArePlain(k);
    case DeletedParticipationBilling => BillingKindsArePlain(k);
  }

  lemma ImageKindsArePlain(k: Kind)
    requires k.UpdatedPrivateImage? || k.UpdatedPublicImage? || k.UpdatedCompanyImage?
    ensures Plain(Text(k))
  {
    match k
    case UpdatedPrivateImage => assert Plain("UPDATED_PRIVATE_IMAGE");
    case UpdatedPublicImage => assert Plain("UPDATED_PUBLIC_IMAGE");
    case UpdatedCompanyImage => assert Plain("UPDATED_COMPANY_IMAGE");
  }

  lemma MinuteKindsArePlain(k: Kind)
    requires k.UploadedMeetingMinute? || k.DeletedMeetingMinute?
    ensures Plain(Text(k))
  {
    match k
    case UploadedMeetingMinute => assert Plain("UPLOADED_MEETING_MINUTE");
    case DeletedMeetingMinute => assert Plain("DELETED_MEETING_MINUTE");
  }

  lemma ParticipationKindsArePlain(k: Kind)
    requires k.CreatedParticipation? || k.UpdatedParticipation? || k.DeletedParticipation?
    ensures Plain(Text(k))
  {
    match k
    case CreatedParticipation => assert Plain("CREATED_PARTICIPATION");
    case UpdatedParticipation => assert Plain("UPDATED_PARTICIPATION");
    case DeletedParticipation => assert Plain("DELETED_PARTICIPATION");
  }

  lemma PackageKindsArePlain(k: Kind)
    requires k.CreatedParticipationPackage? || k.UpdatedParticipationPackage?
    ensures Plain(Text(k))
  {
    match k
    case CreatedParticipationPackage => assert Plain("CREATED_PARTICIPATION_PACKAGE");
    case UpdatedParticipationPackage => assert Plain("UPDATED_PARTICIPATION_PACKAGE");
  }

  lemma RemainingKindsArePlain(k: Kind)
    requires k.DeletedParticipationPackage? || k.UpdatedParticipationStatus?
    ensures Plain(Text(k))
  {
    match k
    case DeletedParticipationPackage => assert Plain("DELETED_PARTICIPATION_PACKAGE");
    case UpdatedParticipationStatus => assert Plain("UPDATED_PARTICIPATION_STATUS");
  }

  lemma BillingKindsArePlain(k: Kind)
    requires k.CreatedParticipationBilling? || k.DeletedParticipationBilling?
    ensures Plain(Text(k))
  {
    match k
    case CreatedParticipationBilling => assert Plain("CREATED_PARTICIPATION_BILLING");
    case DeletedParticipationBilling => assert Plain("DELETED_PARTICIPATION_BILLING");
  }

  lemma HexTellsApart(x: Id, y: Id)
    requires Hex(x) == Hex(y)
    ensures x == y
  {
    HexStandsForTheId(x);
    HexStandsForTheId(y);
  }

  lemma {:induction false} HexesAreDigits(ids: seq<Id>)
    ensures |Hexes(ids)| == HEX_LENGTH * |ids|
    ensures forall i :: 0 <= i < |Hexes(ids)| ==> IsHexDigit(Hexes(ids)[i])
  {
    if ids == [] {
    } else {
      HexesAreDigits(ids[..|ids| - 1]);
    }
  }

  lemma LastHex(ids: seq<Id>, n: nat)
    requires |ids| == n + 1
    ensures |Hexes(ids)| == HEX_LENGTH * n + HEX_LENGTH
    ensures Hexes(ids)[..HEX_LENGTH * n] == Hexes(ids[..n]) && Hexes(ids)[HEX_LENGTH * n..] == Hex(ids[n])
  {
    HexesAreDigits(ids[..n]);
  }

  lemma {:induction false} HexesTellApart(xs: seq<Id>, ys: seq<Id>)
    requires Hexes(xs) == Hexes(ys)
    ensures xs == ys
    decreases |xs|
  {
    HexesAreDigits(xs);
    HexesAreDigits(ys);
    if xs != [] {
      var n := |xs| - 1;
      LastHex(xs, n);
      LastHex(ys, n);
      HexTellsApart(xs[n], ys[n]);
      HexesTellApart(xs[..n], ys[..n]);
      assert xs == xs[..n] + [xs[n]] && ys == ys[..n] + [ys[n]];
    }
  }

  /** Where the plain text ends can be read off. */
  lemma PlainPrefix(a: string, h: string, b: string, k: string)
    requires Plain(a) && Plain(b) && a + h == b + k
    requires h != "" && IsHexDigit(h[0]) && k != "" && IsHexDigit(k[0])
    ensures a == b && h == k
  {
    var s := a + h;
    assert IsHexDigit(s[|a|]) && IsHexDigit(s[|b|]);
    assert forall i :: 0 <= i < |a| ==> s[i] == a[i];
    assert forall i :: 0 <= i < |b| ==> s[i] == b[i];
    assert |a| == |b|;
    assert a == s[..|a|] && b == s[..|b|];
    assert h == s[|a|..] && k == s[|b|..];
  }

  lemma HashedIdsAre(m: Id, d: Data)
    ensures HashedIds(m, d) == [m] + PresentIds(d)
  {
    var p, t, s, c, e := ToSeq(d.post), ToSeq(d.thread), ToSeq(d.speaker), ToSeq(d.company), ToSeq(d.meeting);
  }

  /** The digester is fed the same text exactly when kind, member and the list of present
      identifiers are the same: neither the name counts, nor what the identifiers stand for. */
  lemma FedIff(m: Id, d: Data, m': Id, d': Data)
    requires Plain(Text(d.kind)) && Plain(Text(d'.kind))
    ensures Fed(m, d) == Fed(m', d') <==> Text(d.kind) == Text(d'.kind) && m == m' && PresentIds(d) == PresentIds(d')
  {
    HashedIdsAre(m, d);
    HashedIdsAre(m', d');
    FedPartsIff(Text(d.kind), m, PresentIds(d), Text(d'.kind), m', PresentIds(d'));
  }

  /** Unless the digest collides, so do the signatures. */
  lemma SignatureIff(m: Id, d: Data, m': Id, d': Data, sha: Digest)
    requires Plain(Text(d.kind)) && Plain(Text(d'.kind))
    requires forall s, t :: sha(s) == sha(t) ==> s == t
    ensures Signature(m, d, sha) == Signature(m', d', sha) <==> d.kind == d'.kind && m == m' && PresentIds(d) == PresentIds(d')
  {
    FedIff(m, d, m', d');
    TextTellsKinds(d.kind);
    TextTellsKinds(d'.kind);
  }

  lemma FedPartsIff(kind: string, m: Id, ids: seq<Id>, kind': string, m': Id, ids': seq<Id>)
    requires Plain(kind) && Plain(kind')
    ensures kind + Hexes([m] + ids) == kind' + Hexes([m'] + ids') <==> kind == kind' && m == m' && ids == ids'
  {
    var xs, ys := [m] + ids, [m'] + ids';
    HexesAreDigits(xs);
    HexesAreDigits(ys);
    if kind + Hexes(xs) == kind' + Hexes(ys) {
      PlainPrefix(kind, Hexes(xs), kind', Hexes(ys));
      HexesTellApart(xs, ys);
      assert xs[0] == ys[0] && xs[1..] == ids && ys[1..] == ids';
    }
  }

  /** Which collection each identifier comes from. */
  datatype Origin = Posts | Threads | Speakers | Companies | Meetings | Sessions

  /** Every identifier comes from the collection its field names. */
  ghost predicate WellPlaced(d: Data, origin: Id -> Origin) {
    && (d.post.Some? ==> origin(d.post.value) == Posts)
    && (d.thread.Some? ==> origin(d.thread.value) == Threads)
    && (d.speaker.Some? ==> origin(d.speaker.value) == Speakers)
    && (d.company.Some? ==> origin(d.company.value) == Companies)
    && (d.meeting.Some? ==> origin(d.meeting.value) == Meetings)
    && (d.session.Some? ==> origin(d.session.value) == Sessions)
  }

  function FieldOf(d: Data, o: Origin): Option<Id> {
    match o
    case Posts => d.post
    case Threads => d.thread
    case Speakers => d.speaker
    case Companies => d.company
    case Meetings => d.meeting
    case Sessions => d.session
  }

  lemma FieldIsMember(d: Data, origin: Id -> Origin, o: Origin, x: Id)
    requires WellPlaced(d, origin) && origin(x) == o
    ensures FieldOf(d, o) == Some(x) <==> x in PresentIds(d)
  {
  }

  lemma FieldsDetermined(d: Data, d': Data, origin: Id -> Origin, o: Origin)
    requires WellPlaced(d, origin) && WellPlaced(d', origin) && PresentIds(d) == PresentIds(d')
    ensures FieldOf(d, o) == FieldOf(d', o)
  {
    if FieldOf(d, o).Some? {
      FieldIsMember(d, origin, o, FieldOf(d, o).value);
      FieldIsMember(d', origin, o, FieldOf(d, o).value);
    } else if FieldOf(d', o).Some? {
      FieldIsMember(d, origin, o, FieldOf(d', o).value);
      FieldIsMember(d', origin, o, FieldOf(d', o).value);
    }
  }

  /** As long as no identifier occurs in two collections, what is hashed stands for the whole
      notification but its name. */
  lemma FedIsTheNotification(m: Id, d: Data, m': Id, d': Data, origin: Id -> Origin)
    requires Plain(Text(d.kind)) && Plain(Text(d'.kind))
    requires WellPlaced(d, origin) && WellPlaced(d', origin)
    ensures Fed(m, d) == Fed(m', d') <==>
              Text(d.kind) == Text(d'.kind) && m == m' && forall o :: FieldOf(d, o) == FieldOf(d', o)
  {
    FedIff(m, d, m', d');
    if PresentIds(d) == PresentIds(d') {
      forall o ensures FieldOf(d, o) == FieldOf(d', o) {
        FieldsDetermined(d, d', origin, o);
      }
    }
    if forall o :: FieldOf(d, o) == FieldOf(d', o) {
      SameFieldsSameIds(d, d');
    }
  }

  lemma SameFieldsSameIds(d: Data, d': Data)
    requires forall o :: FieldOf(d, o) == FieldOf(d', o)
    ensures PresentIds(d) == PresentIds(d')
  {
    assert FieldOf(d, Posts) == FieldOf(d', Posts) && FieldOf(d, Threads) == FieldOf(d', Threads);
    assert FieldOf(d, Speakers) == FieldOf(d', Speakers) && FieldOf(d, Companies) == FieldOf(d', Companies);
    assert FieldOf(d, Meetings) == FieldOf(d', Meetings) && FieldOf(d, Sessions) == FieldOf(d', Sessions);
  }

  /** Were an identifier both a speaker's and a company's, the two notifications would be taken for
      one. */
  lemma FieldsAreForgotten(m: Id, d: Data, x: Id, sha: Digest)
    requires d.speaker.None? && d.company.None?
    ensures Signature(m, d.(speaker := Some(x)), sha) == Signature(m, d.(company := Some(x)), sha)
  {
    HashedIdsAre(m, d.(speaker := Some(x)));
    HashedIdsAre(m, d.(company := Some(x)));
    assert PresentIds(d.(speaker := Some(x))) == PresentIds(d.(company := Some(x)));
  }
}
