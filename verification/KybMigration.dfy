/** Migration 0100: moving business verification from attestor applications onto
    the organization's legal profile, and back. */
module KybMigration {
  import opened Wrappers

  type Org = nat
  type Person = nat

  datatype Status = Unverified | Pending | Verified | Rejected

  /** The five columns that move. */
  datatype Kyb = Kyb(legalName: Option<string>, registration: Option<string>, docs: seq<string>,
                     verifiedAt: Option<int>, verifiedBy: Option<Person>)

  /** `kyb` is absent while the table does not have the columns. */
  datatype Application = Application(org: Org, createdAt: int, kyb: Option<Kyb>)

  datatype Review = Review(docs: seq<string>, status: Status, submittedAt: Option<int>,
                           verifiedAt: Option<int>, verifiedBy: Option<Person>, notes: Option<string>)

  datatype Profile = Profile(legalName: string, registration: Option<string>, review: Option<Review>)

  /** One profile per organization: `uq_org_legal_profiles_org`. */
  type Profiles = map<Org, Profile>

  const NO_KYB := Kyb(None, None, [], None, None)
  const NO_REVIEW := Review([], Unverified, None, None, None, None)

  ghost predicate BeforeUpgrade(apps: seq<Application>, profiles: Profiles) {
    && (forall i :: 0 <= i < |apps| ==> apps[i].kyb.Some?)
    && (forall o :: o in profiles ==> profiles[o].review.None?)
  }

  // ---- latest_application -------------------------------------------------------

  /** Carries a legal name, so that a profile can be made of it. */
  predicate Named(a: Application) {
    a.kyb.Some? && a.kyb.value.legalName.Some? && a.kyb.value.legalName.value != ""
  }

  /** ORDER BY kyb_verified_at DESC NULLS LAST, created_at DESC. */
  predicate AtLeastAsRecent(a: Application, b: Application)
    requires a.kyb.Some? && b.kyb.Some?
  {
    match (a.kyb.value.verifiedAt, b.kyb.value.verifiedAt)
    case (Some(x), Some(y)) => x > y || (x == y && a.createdAt >= b.createdAt)
    case (Some(_), None) => true
    case (None, Some(_)) => false
    case (None, None) => a.createdAt >= b.createdAt
  }

  ghost predicate IsPick(apps: seq<Application>, org: Org, i: nat) {
    && i < |apps| && apps[i].org == org && Named(apps[i])
    && forall j :: 0 <= j < |apps| && apps[j].org == org && Named(apps[j]) ==> AtLeastAsRecent(apps[i], apps[j])
  }

  /** One evaluation of the subquery: DISTINCT ON keeps one first row for each
      organization, and is free to choose among rows that tie. */
  ghost predicate IsLatest(apps: seq<Application>, picks: map<Org, nat>) {
    && (forall o :: o in picks ==> IsPick(apps, o, picks[o]))
    && (forall i :: 0 <= i < |apps| && Named(apps[i]) ==> apps[i].org in picks)
  }

  /** The subquery always has an answer. */
  lemma {:induction false} LatestExists(apps: seq<Application>) returns (picks: map<Org, nat>)
    requires forall i :: 0 <= i < |apps| ==> apps[i].kyb.Some?
    ensures IsLatest(apps, picks)
  {
    if |apps| == 0 {
      picks := map[];
    } else {
      var n := |apps| - 1;
      var last := apps[n];
      picks := LatestExists(apps[..n]);
      assert forall o :: o in picks ==> IsPick(apps[..n], o, picks[o]);
      if Named(last) && (last.org !in picks || AtLeastAsRecent(last, apps[picks[last.org]])) {
        picks := picks[last.org := n];
      }
    }
  }

  // ---- The statements -------------------------------------------------------------

  function InsertStatus(k: Kyb): Status {
    if k.verifiedAt.Some? then Verified
    else if k.registration.Some? && |k.docs| > 0 then Pending
    else Unverified
  }

  function UpdateStatus(k: Kyb): Status {
    if k.verifiedAt.Some? then Verified
    else if |k.docs| > 0 then Pending
    else Unverified
  }

  /** ADD COLUMN with the server defaults. */
  function WithColumns(profiles: Profiles): Profiles {
    map o | o in profiles :: profiles[o].(review := Some(NO_REVIEW))
  }

  /** INSERT ... WHERE NOT EXISTS. */
  function Inserted(apps: seq<Application>, profiles: Profiles, picks: map<Org, nat>): Profiles
    requires IsLatest(apps, picks)
  {
    profiles + map o | o in picks && o !in profiles ::
      var k := apps[picks[o]].kyb.value;
      Profile(k.legalName.value, k.registration,
              Some(Review(k.docs, InsertStatus(k), k.verifiedAt, k.verifiedAt, k.verifiedBy, None)))
  }

  function Coalesce<T>(a: Option<T>, b: Option<T>): Option<T> {
    if a.Some? then a else b
  }

  lemma InsertedHaveReviews(apps: seq<Application>, profiles: Profiles, picks: map<Org, nat>)
    requires IsLatest(apps, picks)
    ensures var r := Inserted(apps, WithColumns(profiles), picks); forall o :: o in r ==> r[o].review.Some?
  {
  }

  /** UPDATE ... FROM latest_application. */
  function Updated(apps: seq<Application>, profiles: Profiles, picks: map<Org, nat>): Profiles
    requires IsLatest(apps, picks) && forall o :: o in profiles ==> profiles[o].review.Some?
  {
    map o | o in profiles ::
      if o !in picks then profiles[o]
      else
        var k := apps[picks[o]].kyb.value;
        Profile(profiles[o].legalName, Coalesce(profiles[o].registration, k.registration),
                Some(profiles[o].review.value.(docs := k.docs, status := UpdateStatus(k), submittedAt := k.verifiedAt,
                                               verifiedAt := k.verifiedAt, verifiedBy := k.verifiedBy)))
  }

  function UpProfiles(apps: seq<Application>, profiles: Profiles, first: map<Org, nat>, second: map<Org, nat>): Profiles
    requires IsLatest(apps, first) && IsLatest(apps, second)
  {
    InsertedHaveReviews(apps, profiles, first);
    Updated(apps, Inserted(apps, WithColumns(profiles), first), second)
  }

  function WithoutKyb(apps: seq<Application>): seq<Application> {
    seq(|apps|, i requires 0 <= i < |apps| => apps[i].(kyb := None))
  }

  /** What the downgrade writes into an application of `org`: the column
      defaults, overwritten from the profile if there is one. */
  function KybFrom(profiles: Profiles, org: Org): Kyb {
    if org !in profiles || profiles[org].review.None? then NO_KYB
    else
      var p := profiles[org];
      Kyb(Some(p.legalName), p.registration, p.review.value.docs, p.review.value.verifiedAt, p.review.value.verifiedBy)
  }

  function DownApps(apps: seq<Application>, profiles: Profiles): seq<Application> {
    seq(|apps|, i requires 0 <= i < |apps| => apps[i].(kyb := Some(KybFrom(profiles, apps[i].org))))
  }

  function WithoutReview(profiles: Profiles): Profiles {
    map o | o in profiles :: profiles[o].(review := None)
  }

  // ---- What the tables say before and after --------------------------------------------

  /** Some named application of the organization was verified. */
  ghost predicate HasVerdict(apps: seq<Application>, org: Org) {
    exists i :: 0 <= i < |apps| && apps[i].org == org && Named(apps[i]) && apps[i].kyb.value.verifiedAt.Some?
  }

  ghost predicate HasNamed(apps: seq<Application>, org: Org) {
    exists i :: 0 <= i < |apps| && apps[i].org == org && Named(apps[i])
  }

  ghost predicate IsVerified(profiles: Profiles, org: Org) {
    org in profiles && profiles[org].review.Some? && profiles[org].review.value.status.Verified?
  }

  /** A review as the upgrade leaves it: verified exactly with a verdict, awaiting
      one exactly with documents and none yet, never rejected. */
  ghost predicate StatusFits(r: Review) {
    && (r.status.Verified? <==> r.verifiedAt.Some?)
    && (r.status.Pending? <==> r.verifiedAt.None? && r.docs != [])
    && (r.status.Unverified? <==> r.verifiedAt.None? && r.docs == [])
    && r.submittedAt == r.verifiedAt && r.notes.None?
  }

  /** Application i carries what the review says, and no named application of the
      organization was verified later or, as late or not at all, created later. */
  ghost predicate TakenFromLatest(apps: seq<Application>, org: Org, r: Review, i: int) {
    && 0 <= i < |apps| && apps[i].org == org && Named(apps[i])
    && r.docs == apps[i].kyb.value.docs && r.verifiedAt == apps[i].kyb.value.verifiedAt
    && r.verifiedBy == apps[i].kyb.value.verifiedBy
    && forall j :: 0 <= j < |apps| && apps[j].org == org && Named(apps[j]) ==>
         && (apps[j].kyb.value.verifiedAt.Some? ==>
               r.verifiedAt.Some? && apps[j].kyb.value.verifiedAt.value <= r.verifiedAt.value)
         && (apps[j].kyb.value.verifiedAt == r.verifiedAt ==> apps[j].createdAt <= apps[i].createdAt)
  }

  /** The profile the upgrade leaves an organization. */
  ghost predicate ProfileFits(apps: seq<Application>, before: Profiles, org: Org, p: Profile) {
    && (org in before ==>
          && p.legalName == before[org].legalName
          && (before[org].registration.Some? ==> p.registration == before[org].registration))
    && p.review.Some?
    && (if HasNamed(apps, org) then
          && StatusFits(p.review.value)
          && exists i :: TakenFromLatest(apps, org, p.review.value, i)
        else
          && org in before && p.registration == before[org].registration
          && p.review.value == Review([], Unverified, None, None, None, None))
  }

  class Database {
    const applications: array<Application>
    var profiles: Profiles

    constructor (applications: array<Application>, profiles: Profiles)
      ensures this.applications == applications && this.profiles == profiles
    {
      this.applications, this.profiles := applications, profiles;
    }

    method AddColumns()
      modifies this`profiles
      ensures profiles == WithColumns(old(profiles))
    {
      profiles := map o | o in profiles :: profiles[o].(review := Some(NO_REVIEW));
    }

    method InsertProfiles(picks: map<Org, nat>)
      requires IsLatest(applications[..], picks)
      modifies this`profiles
      ensures profiles == Inserted(applications[..], old(profiles), picks)
    {
      profiles := Inserted(applications[..], profiles, picks);
    }

    method UpdateProfiles(picks: map<Org, nat>)
      requires IsLatest(applications[..], picks) && forall o :: o in profiles ==> profiles[o].review.Some?
      modifies this`profiles
      ensures profiles == Updated(applications[..], old(profiles), picks)
    {
      profiles := Updated(applications[..], profiles, picks);
    }

    method DropColumns()
      modifies applications
      ensures applications[..] == WithoutKyb(old(applications[..]))
    {
      forall i | 0 <= i < applications.Length {
        applications[i] := applications[i].(kyb := None);
      }
    }

    /** The subquery runs twice, once for the INSERT and once for the UPDATE, so
        ties may be broken differently: `first` and `second` are its answers.
        Whatever they are, an organization ends verified if and only if one of
        its named applications was, and has a profile if and only if it had one
        or named itself. */
    method Upgrade(first: map<Org, nat>, second: map<Org, nat>)
      requires BeforeUpgrade(applications[..], profiles)
      requires IsLatest(applications[..], first) && IsLatest(applications[..], second)
      modifies this, applications
      ensures forall o :: IsVerified(profiles, o) <==> HasVerdict(old(applications[..]), o)
      ensures forall o :: o in profiles <==> o in old(profiles) || HasNamed(old(applications[..]), o)
      ensures forall o :: o in profiles ==> ProfileFits(old(applications[..]), old(profiles), o, profiles[o])
      ensures profiles == UpProfiles(old(applications[..]), old(profiles), first, second)
      ensures applications[..] == WithoutKyb(old(applications[..]))
    {
      ghost var apps, before := applications[..], profiles;
      AddColumns();
      InsertProfiles(first);
      InsertedHaveReviews(apps, before, first);
      UpdateProfiles(second);
      DropColumns();
      forall o ensures IsVerified(profiles, o) <==> HasVerdict(apps, o) {
        VerifiedIff(apps, before, first, second, o);
      }
      forall o ensures o in profiles <==> o in before || HasNamed(apps, o) {
        ProfileIff(apps, before, first, second, o);
      }
      forall o | o in profiles ensures ProfileFits(apps, before, o, profiles[o]) {
        ProfileIff(apps, before, first, second, o);
        EveryProfileFits(apps, before, first, second, o);
      }
    }

    /** After an upgrade, this gives the applications back exactly when they were
        restorable before it.  Profiles lose their review and nothing else. */
    method Downgrade()
      modifies this, applications
      ensures applications[..] == DownApps(old(applications[..]), old(profiles))
      ensures profiles == WithoutReview(old(profiles))
      ensures profiles.Keys == old(profiles).Keys
      ensures forall o :: o in profiles ==>
                profiles[o] == Profile(old(profiles)[o].legalName, old(profiles)[o].registration, None)
      ensures forall apps: seq<Application>, before: Profiles, first: map<Org, nat>, second: map<Org, nat> |
                IsUpgradeOf(old(applications[..]), old(profiles), apps, before, first, second)
                :: applications[..] == apps <==> Restorable(apps, before)
    {
      ghost var dropped, after := applications[..], profiles;
      forall i | 0 <= i < applications.Length {
        applications[i] := applications[i].(kyb := Some(KybFrom(profiles, applications[i].org)));
      }
      profiles := map o | o in profiles :: profiles[o].(review := None);
      forall apps: seq<Application>, before: Profiles, first: map<Org, nat>, second: map<Org, nat> |
        IsUpgradeOf(dropped, after, apps, before, first, second)
        ensures DownApps(dropped, after) == apps <==> Restorable(apps, before)
      {
        RestoredIff(apps, before, first, second);
      }
    }
  }

  // ---- Verdicts -----------------------------------------------------------------

  /** No verdict on a named application is lost, and none is invented. */
  lemma VerifiedIff(apps: seq<Application>, profiles: Profiles, first: map<Org, nat>, second: map<Org, nat>, org: Org)
    requires BeforeUpgrade(apps, profiles) && IsLatest(apps, first) && IsLatest(apps, second)
    ensures IsVerified(UpProfiles(apps, profiles, first, second), org) <==> HasVerdict(apps, org)
  {
    if org in second {
      UpdateDecides(apps, profiles, first, second, org);
      StatusShowsVerdict(UpProfiles(apps, profiles, first, second), org, apps[second[org]].kyb.value);
      PickDecidesVerdict(apps, org, second[org]);
    } else {
      NoPickNoVerdict(apps, profiles, first, second, org);
    }
  }

  lemma StatusShowsVerdict(profiles: Profiles, org: Org, k: Kyb)
    requires org in profiles
    requires profiles[org].review
             == Some(Review(k.docs, UpdateStatus(k), k.verifiedAt, k.verifiedAt, k.verifiedBy, None))
    ensures IsVerified(profiles, org) <==> k.verifiedAt.Some?
  {
  }

  lemma NoPickNoVerdict(apps: seq<Application>, profiles: Profiles,
                        first: map<Org, nat>, second: map<Org, nat>, org: Org)
    requires BeforeUpgrade(apps, profiles) && IsLatest(apps, first) && IsLatest(apps, second) && org !in second
    ensures !HasVerdict(apps, org) && !IsVerified(UpProfiles(apps, profiles, first, second), org)
  {
    SameOrgsPicked(apps, first, second, org);
  }

  /** The picked application carries a verdict when any named one does. */
  lemma PickDecidesVerdict(apps: seq<Application>, org: Org, i: nat)
    requires IsPick(apps, org, i)
    ensures apps[i].kyb.value.verifiedAt.Some? <==> HasVerdict(apps, org)
  {
    if j :| 0 <= j < |apps| && apps[j].org == org && Named(apps[j]) && apps[j].kyb.value.verifiedAt.Some? {
      assert AtLeastAsRecent(apps[i], apps[j]);
    }
  }

  lemma EveryProfileFits(apps: seq<Application>, before: Profiles, first: map<Org, nat>, second: map<Org, nat>,
                         org: Org)
    requires BeforeUpgrade(apps, before) && IsLatest(apps, first) && IsLatest(apps, second)
    requires org in before || HasNamed(apps, org)
    ensures org in UpProfiles(apps, before, first, second)
    ensures ProfileFits(apps, before, org, UpProfiles(apps, before, first, second)[org])
  {
    PickedIffNamed(apps, first, org);
    PickedIffNamed(apps, second, org);
    if HasNamed(apps, org) {
      UpdateDecides(apps, before, first, second, org);
      PickIsTaken(apps, org, second[org], UpProfiles(apps, before, first, second)[org].review.value);
    } else {
      LeftAlone(apps, before, first, second, org);
    }
  }

  lemma PickIsTaken(apps: seq<Application>, org: Org, i: nat, r: Review)
    requires IsPick(apps, org, i)
    requires var k := apps[i].kyb.value;
             r == Review(k.docs, UpdateStatus(k), k.verifiedAt, k.verifiedAt, k.verifiedBy, None)
    ensures StatusFits(r) && TakenFromLatest(apps, org, r, i)
  {
    forall j | 0 <= j < |apps| && apps[j].org == org && Named(apps[j])
      ensures apps[j].kyb.value.verifiedAt.Some? ==>
                r.verifiedAt.Some? && apps[j].kyb.value.verifiedAt.value <= r.verifiedAt.value
      ensures apps[j].kyb.value.verifiedAt == r.verifiedAt ==> apps[j].createdAt <= apps[i].createdAt
    {
      assert AtLeastAsRecent(apps[i], apps[j]);
    }
  }

  lemma LeftAlone(apps: seq<Application>, before: Profiles, first: map<Org, nat>, second: map<Org, nat>, org: Org)
    requires BeforeUpgrade(apps, before) && IsLatest(apps, first) && IsLatest(apps, second)
    requires org in before && org !in first && org !in second
    ensures org in UpProfiles(apps, before, first, second)
    ensures UpProfiles(apps, before, first, second)[org]
            == Profile(before[org].legalName, before[org].registration,
                       Some(Review([], Unverified, None, None, None, None)))
  {
  }

  /** The INSERT asks for a registration number before it lets an organization await
      review, which the UPDATE then does not. */
  lemma InsertIsStricter(k: Kyb)
    ensures InsertStatus(k) == UpdateStatus(k) <==> k.verifiedAt.Some? || k.registration.Some? || k.docs == []
    ensures InsertStatus(k) != UpdateStatus(k) ==> InsertStatus(k).Unverified? && UpdateStatus(k).Pending?
  {
  }

  /** A verdict on an application without a legal name does not survive, although
      the migration says a verified application promotes to a verified profile. */
  lemma UnnamedVerdictIsLost(org: Org, when: int)
    ensures var apps := [Application(org, 0, Some(Kyb(None, Some("RC1"), ["doc"], Some(when), None)))];
            BeforeUpgrade(apps, map[]) && IsLatest(apps, map[]) && UpProfiles(apps, map[], map[], map[]) == map[]
  {
  }

  /** The final status, documents and verdict are a function of the row the
      UPDATE picked alone: what the INSERT put there never shows. */
  lemma UpdateDecides(apps: seq<Application>, profiles: Profiles, first: map<Org, nat>, second: map<Org, nat>, org: Org)
    requires BeforeUpgrade(apps, profiles) && IsLatest(apps, first) && IsLatest(apps, second) && org in second
    ensures org in UpProfiles(apps, profiles, first, second)
    ensures var k := apps[second[org]].kyb.value;
            UpProfiles(apps, profiles, first, second)[org].review
            == Some(Review(k.docs, UpdateStatus(k), k.verifiedAt, k.verifiedAt, k.verifiedBy, None))
    ensures org in profiles ==>
              && UpProfiles(apps, profiles, first, second)[org].legalName == profiles[org].legalName
              && (profiles[org].registration.Some? ==>
                    UpProfiles(apps, profiles, first, second)[org].registration == profiles[org].registration)
  {
    SameOrgsPicked(apps, first, second, org);
  }

  lemma SameOrgsPicked(apps: seq<Application>, first: map<Org, nat>, second: map<Org, nat>, org: Org)
    requires IsLatest(apps, first) && IsLatest(apps, second)
    ensures org in first <==> org in second
  {
  }

  lemma PickedIffNamed(apps: seq<Application>, picks: map<Org, nat>, org: Org)
    requires IsLatest(apps, picks)
    ensures org in picks <==> HasNamed(apps, org)
  {
    if org in picks {
      assert IsPick(apps, org, picks[org]);
    }
  }

  lemma ProfileIff(apps: seq<Application>, profiles: Profiles, first: map<Org, nat>, second: map<Org, nat>, org: Org)
    requires BeforeUpgrade(apps, profiles) && IsLatest(apps, first) && IsLatest(apps, second)
    ensures org in UpProfiles(apps, profiles, first, second) <==> org in profiles || HasNamed(apps, org)
  {
    PickedIffNamed(apps, first, org);
  }

  // ---- There and back -------------------------------------------------------------

  function RoundTrip(apps: seq<Application>, profiles: Profiles, first: map<Org, nat>, second: map<Org, nat>):
    seq<Application>
    requires IsLatest(apps, first) && IsLatest(apps, second)
  {
    DownApps(WithoutKyb(apps), UpProfiles(apps, profiles, first, second))
  }

  ghost predicate IsUpgradeOf(dropped: seq<Application>, after: Profiles, apps: seq<Application>, before: Profiles,
                              first: map<Org, nat>, second: map<Org, nat>)
  {
    && BeforeUpgrade(apps, before) && IsLatest(apps, first) && IsLatest(apps, second)
    && dropped == WithoutKyb(apps) && after == UpProfiles(apps, before, first, second)
  }

  /** What comes back to every application of an organization with a named one. */
  function Merged(profiles: Profiles, org: Org, a: Kyb, b: Kyb): Kyb {
    if org in profiles then
      Kyb(Some(profiles[org].legalName), Coalesce(profiles[org].registration, b.registration),
          b.docs, b.verifiedAt, b.verifiedBy)
    else Kyb(a.legalName, Coalesce(a.registration, b.registration), b.docs, b.verifiedAt, b.verifiedBy)
  }

  lemma NamedComesBackMerged(apps: seq<Application>, profiles: Profiles,
                             first: map<Org, nat>, second: map<Org, nat>, i: nat)
    requires BeforeUpgrade(apps, profiles) && IsLatest(apps, first) && IsLatest(apps, second) && i < |apps|
    requires HasNamed(apps, apps[i].org)
    ensures var org := apps[i].org;
            && IsPick(apps, org, first[org]) && IsPick(apps, org, second[org])
            && RoundTrip(apps, profiles, first, second)[i].kyb
               == Some(Merged(profiles, org, apps[first[org]].kyb.value, apps[second[org]].kyb.value))
  {
    PickedIffNamed(apps, first, apps[i].org);
    PickedIffNamed(apps, second, apps[i].org);
    BackFromProfile(apps, UpProfiles(apps, profiles, first, second), i);
    MergedProfile(apps, profiles, first, second, apps[i].org);
  }

  lemma BackFromProfile(apps: seq<Application>, profiles: Profiles, i: nat)
    requires i < |apps|
    ensures DownApps(WithoutKyb(apps), profiles)[i].kyb == Some(KybFrom(profiles, apps[i].org))
  {
  }

  lemma MergedProfile(apps: seq<Application>, profiles: Profiles, first: map<Org, nat>, second: map<Org, nat>, org: Org)
    requires BeforeUpgrade(apps, profiles) && IsLatest(apps, first) && IsLatest(apps, second)
    requires org in first && org in second && IsPick(apps, org, first[org]) && IsPick(apps, org, second[org])
    ensures KybFrom(UpProfiles(apps, profiles, first, second), org)
            == Merged(profiles, org, apps[first[org]].kyb.value, apps[second[org]].kyb.value)
  {
  }

  lemma UnnamedComesBackBare(apps: seq<Application>, profiles: Profiles,
                             first: map<Org, nat>, second: map<Org, nat>, i: nat)
    requires BeforeUpgrade(apps, profiles) && IsLatest(apps, first) && IsLatest(apps, second) && i < |apps|
    requires !HasNamed(apps, apps[i].org)
    ensures RoundTrip(apps, profiles, first, second)[i].kyb == Some(Bare(profiles, apps[i].org))
  {
    PickedIffNamed(apps, first, apps[i].org);
    PickedIffNamed(apps, second, apps[i].org);
  }

  /** What an organization without a named application has to offer. */
  function Bare(profiles: Profiles, org: Org): Kyb {
    if org in profiles then Kyb(Some(profiles[org].legalName), profiles[org].registration, [], None, None) else NO_KYB
  }

  /** All applications of the organization carry these columns. */
  ghost predicate AllCarry(apps: seq<Application>, org: Org, k: Kyb) {
    forall j :: 0 <= j < |apps| && apps[j].org == org ==> apps[j].kyb == Some(k)
  }

  /** The profile, if there is one, has the same name, and the same registration
      number or none. */
  predicate Agrees(profiles: Profiles, org: Org, k: Kyb) {
    org in profiles ==>
      k.legalName == Some(profiles[org].legalName) && profiles[org].registration in {None, k.registration}
  }

  /** What can be brought back: an organization's applications that are all alike
      and agree with its profile, or, when none of them is named, that say just
      what the bare profile does. */
  ghost predicate Restorable(apps: seq<Application>, profiles: Profiles) {
    forall i :: 0 <= i < |apps| ==> RestorableRow(apps, profiles, apps[i])
  }

  ghost predicate RestorableRow(apps: seq<Application>, profiles: Profiles, a: Application) {
    a.kyb.Some?
    && if HasNamed(apps, a.org) then AllCarry(apps, a.org, a.kyb.value) && Agrees(profiles, a.org, a.kyb.value)
       else a.kyb.value == Bare(profiles, a.org)
  }

  lemma MergedAgrees(profiles: Profiles, org: Org, k: Kyb)
    ensures Merged(profiles, org, k, k) == k <==> Agrees(profiles, org, k)
  {
  }

  lemma RestorableRowIsRestored(apps: seq<Application>, profiles: Profiles,
                                first: map<Org, nat>, second: map<Org, nat>, i: nat)
    requires BeforeUpgrade(apps, profiles) && IsLatest(apps, first) && IsLatest(apps, second) && i < |apps|
    requires RestorableRow(apps, profiles, apps[i])
    ensures RoundTrip(apps, profiles, first, second)[i] == apps[i]
  {
    if HasNamed(apps, apps[i].org) {
      NamedComesBackMerged(apps, profiles, first, second, i);
      MergedAgrees(profiles, apps[i].org, apps[i].kyb.value);
    } else {
      UnnamedComesBackBare(apps, profiles, first, second, i);
    }
  }

  lemma RestoredRowIsRestorable(apps: seq<Application>, profiles: Profiles,
                                first: map<Org, nat>, second: map<Org, nat>, i: nat)
    requires BeforeUpgrade(apps, profiles) && IsLatest(apps, first) && IsLatest(apps, second) && i < |apps|
    requires RoundTrip(apps, profiles, first, second) == apps
    ensures RestorableRow(apps, profiles, apps[i])
  {
    var org, back := apps[i].org, RoundTrip(apps, profiles, first, second);
    if HasNamed(apps, org) {
      NamedComesBackMerged(apps, profiles, first, second, i);
      forall j | 0 <= j < |apps| && apps[j].org == org ensures apps[j].kyb == apps[i].kyb {
        NamedComesBackMerged(apps, profiles, first, second, j);
      }
      MergedAgrees(profiles, org, apps[i].kyb.value);
    } else {
      UnnamedComesBackBare(apps, profiles, first, second, i);
    }
  }

  /** Upgrade and downgrade give the applications back exactly if and only if they
      were restorable.  How ties were broken plays no part. */
  lemma RestoredIff(apps: seq<Application>, profiles: Profiles, first: map<Org, nat>, second: map<Org, nat>)
    requires BeforeUpgrade(apps, profiles) && IsLatest(apps, first) && IsLatest(apps, second)
    ensures RoundTrip(apps, profiles, first, second) == apps <==> Restorable(apps, profiles)
  {
    var back := RoundTrip(apps, profiles, first, second);
    if Restorable(apps, profiles) {
      forall i | 0 <= i < |apps| ensures back[i] == apps[i] {
        RestorableRowIsRestored(apps, profiles, first, second, i);
      }
      assert back == apps;
    }
    if back == apps {
      forall i | 0 <= i < |apps| ensures RestorableRow(apps, profiles, apps[i]) {
        RestoredRowIsRestorable(apps, profiles, first, second, i);
      }
    }
  }

  /** With no profile beforehand and one named application, that application gets
      its columns back exactly, whatever its unnamed siblings say. */
  lemma OnlyNamedApplicationIsRestored(apps: seq<Application>, profiles: Profiles,
                                       first: map<Org, nat>, second: map<Org, nat>, i: nat)
    requires BeforeUpgrade(apps, profiles) && IsLatest(apps, first) && IsLatest(apps, second) && i < |apps|
    requires apps[i].org !in profiles && Named(apps[i])
    requires forall j :: 0 <= j < |apps| && apps[j].org == apps[i].org && Named(apps[j]) ==> j == i
    ensures RoundTrip(apps, profiles, first, second)[i] == apps[i]
  {
    NamedComesBackMerged(apps, profiles, first, second, i);
    MergedAgrees(profiles, apps[i].org, apps[i].kyb.value);
  }

  /** An organization that applied again under a corrected name does not get both
      applications back. */
  lemma ReapplicationIsOverwritten(first: map<Org, nat>, second: map<Org, nat>)
    requires IsLatest(Reapplied(), first) && IsLatest(Reapplied(), second)
    ensures BeforeUpgrade(Reapplied(), map[]) && RoundTrip(Reapplied(), map[], first, second) != Reapplied()
  {
    var apps := Reapplied();
    assert Named(apps[0]) && HasNamed(apps, 0);
    assert apps[1].kyb != apps[0].kyb;
    assert !RestorableRow(apps, map[], apps[0]);
    RestoredIff(apps, map[], first, second);
  }

  function Reapplied(): seq<Application> {
    [Application(0, 1, Some(Kyb(Some("Acme"), None, [], None, None))),
     Application(0, 2, Some(Kyb(Some("Acme Ltd"), Some("RC1"), ["doc"], Some(3), None)))]
  }

  // ---- Repeated runs -------------------------------------------------------------------

  ghost predicate HasName(profiles: Profiles, org: Org) {
    org in profiles && profiles[org].legalName != ""
  }

  lemma VerdictInProfile(apps: seq<Application>, profiles: Profiles, first: map<Org, nat>, second: map<Org, nat>,
                         org: Org)
    requires BeforeUpgrade(apps, profiles) && IsLatest(apps, first) && IsLatest(apps, second)
    ensures KybFrom(UpProfiles(apps, profiles, first, second), org).verifiedAt.Some? <==> HasVerdict(apps, org)
  {
    if org in second {
      UpdateDecides(apps, profiles, first, second, org);
      PickDecidesVerdict(apps, org, second[org]);
    } else {
      NoPickNoVerdict(apps, profiles, first, second, org);
    }
  }

  /** What the downgrade writes into an application counts as a verdict. */
  lemma VerdictWrittenBack(apps: seq<Application>, after: Profiles, org: Org)
    requires forall o :: o in after ==> after[o].review.Some?
    requires KybFrom(after, org).verifiedAt.Some? <==> HasVerdict(apps, org)
    ensures HasVerdict(DownApps(WithoutKyb(apps), after), org) <==> HasVerdict(apps, org) && HasName(after, org)
  {
    var back := DownApps(WithoutKyb(apps), after);
    forall i | 0 <= i < |apps| ensures back[i].org == apps[i].org && back[i].kyb == Some(KybFrom(after, apps[i].org)) {}
    if i :| 0 <= i < |apps| && apps[i].org == org {
      assert back[i].org == org;
    }
  }

  lemma UpProfilesHaveReviews(apps: seq<Application>, profiles: Profiles, first: map<Org, nat>, second: map<Org, nat>)
    requires IsLatest(apps, first) && IsLatest(apps, second)
    ensures var after := UpProfiles(apps, profiles, first, second); forall o :: o in after ==> after[o].review.Some?
  {
  }

  /** Down again, an organization has its verdict if and only if it had one and its
      profile has a name: under an empty name no application is named. */
  lemma VerdictAfterRoundTrip(apps: seq<Application>, profiles: Profiles, first: map<Org, nat>,
                              second: map<Org, nat>, org: Org)
    requires BeforeUpgrade(apps, profiles) && IsLatest(apps, first) && IsLatest(apps, second)
    ensures HasVerdict(RoundTrip(apps, profiles, first, second), org)
            <==> HasVerdict(apps, org) && HasName(UpProfiles(apps, profiles, first, second), org)
  {
    UpProfilesHaveReviews(apps, profiles, first, second);
    VerdictInProfile(apps, profiles, first, second, org);
    VerdictWrittenBack(apps, UpProfiles(apps, profiles, first, second), org);
  }

  /** `picks` holds, for each time up and down again, how the two subqueries broke
      their ties. */
  ghost predicate Cycled(apps: seq<Application>, profiles: Profiles, picks: seq<(map<Org, nat>, map<Org, nat>)>,
                         last: seq<Application>, lastProfiles: Profiles)
    decreases |picks|
  {
    if |picks| == 0 then apps == last && profiles == lastProfiles
    else
      var (first, second) := picks[0];
      && IsLatest(apps, first) && IsLatest(apps, second)
      && Cycled(RoundTrip(apps, profiles, first, second), WithoutReview(UpProfiles(apps, profiles, first, second)),
                picks[1..], last, lastProfiles)
  }

  lemma RoundTripMayGoUpAgain(apps: seq<Application>, profiles: Profiles, first: map<Org, nat>, second: map<Org, nat>)
    requires IsLatest(apps, first) && IsLatest(apps, second)
    ensures BeforeUpgrade(RoundTrip(apps, profiles, first, second),
                          WithoutReview(UpProfiles(apps, profiles, first, second)))
  {
  }

  /** A profile once there stays, under its name. */
  lemma {:induction false} NameStays(apps: seq<Application>, profiles: Profiles,
                                     picks: seq<(map<Org, nat>, map<Org, nat>)>,
                                     last: seq<Application>, lastProfiles: Profiles, org: Org)
    requires Cycled(apps, profiles, picks, last, lastProfiles) && org in profiles
    ensures org in lastProfiles && lastProfiles[org].legalName == profiles[org].legalName
    decreases |picks|
  {
    if |picks| > 0 {
      var (first, second) := picks[0];
      NameStays(RoundTrip(apps, profiles, first, second), WithoutReview(UpProfiles(apps, profiles, first, second)),
                picks[1..], last, lastProfiles, org);
    }
  }

  lemma {:induction false} VerdictOverCycles(apps: seq<Application>, profiles: Profiles,
                                             picks: seq<(map<Org, nat>, map<Org, nat>)>,
                                             last: seq<Application>, lastProfiles: Profiles, org: Org)
    requires BeforeUpgrade(apps, profiles) && Cycled(apps, profiles, picks, last, lastProfiles) && |picks| > 0
    ensures HasVerdict(last, org) <==> HasVerdict(apps, org) && HasName(lastProfiles, org)
    ensures BeforeUpgrade(last, lastProfiles)
    decreases |picks|
  {
    var (first, second) := picks[0];
    var next := RoundTrip(apps, profiles, first, second);
    var left := WithoutReview(UpProfiles(apps, profiles, first, second));
    VerdictAfterRoundTrip(apps, profiles, first, second, org);
    RoundTripMayGoUpAgain(apps, profiles, first, second);
    ProfileIff(apps, profiles, first, second, org);
    if |picks| > 1 {
      VerdictOverCycles(next, left, picks[1..], last, lastProfiles, org);
    }
    if org in left {
      NameStays(next, left, picks[1..], last, lastProfiles, org);
    }
  }

  /** However often the migration has gone up and down, the next upgrade leaves an
      organization verified if and only if one of its named applications was
      verified at the start and its profile does not carry an empty name. */
  lemma VerdictSurvivesRepeatedRuns(apps: seq<Application>, profiles: Profiles,
                                    picks: seq<(map<Org, nat>, map<Org, nat>)>,
                                    last: seq<Application>, lastProfiles: Profiles,
                                    first: map<Org, nat>, second: map<Org, nat>, org: Org)
    requires BeforeUpgrade(apps, profiles) && Cycled(apps, profiles, picks, last, lastProfiles) && |picks| > 0
    requires IsLatest(last, first) && IsLatest(last, second)
    ensures BeforeUpgrade(last, lastProfiles)
    ensures IsVerified(UpProfiles(last, lastProfiles, first, second), org)
            <==> HasVerdict(apps, org) && HasName(lastProfiles, org)
  {
    VerdictOverCycles(apps, profiles, picks, last, lastProfiles, org);
    VerifiedIff(last, lastProfiles, first, second, org);
  }
}
