/** Migration 0089: from organization-wide capabilities to team-scoped ones. */
module TeamCapabilities {

  type Org = nat
  type TeamId = nat
  type MemberId = nat
  type UserId = nat

  datatype Capability = Attestor | Contributor | Operator

  datatype Team = Team(org: Org, name: string)

  /** A membership row; owners and admins are `admin`. */
  datatype Member = Member(org: Org, user: UserId, admin: bool)

  const ALL_MEMBERS := "All members"

  datatype Tables = Tables(
    active: set<(Org, Capability)>,      // org_capabilities WHERE status = 'active'
    members: map<MemberId, Member>,      // org_members
    teams: map<TeamId, Team>,            // org_teams
    teamMembers: set<(TeamId, MemberId)>,
    teamCapabilities: set<(TeamId, Capability)>)

  /** Foreign keys and `uq_org_teams_org_name`. */
  ghost predicate Consistent(d: Tables) {
    && (forall x :: x in d.teamMembers ==> x.0 in d.teams && x.1 in d.members)
    && (forall x :: x in d.teamCapabilities ==> x.0 in d.teams)
    && (forall s, t :: s in d.teams && t in d.teams && d.teams[s] == d.teams[t] ==> s == t)
  }

  function ActiveOrgs(d: Tables): set<Org> {
    set x | x in d.active :: x.0
  }

  // ---- What a member may do ------------------------------------------------------

  /** Before: the organization has the capability. */
  predicate HeldByOrg(d: Tables, m: MemberId, c: Capability)
    requires m in d.members
  {
    (d.members[m].org, c) in d.active
  }

  ghost predicate OnTeamOfOwnOrg(d: Tables, m: MemberId, c: Capability)
    requires m in d.members
  {
    exists t :: t in d.teams && d.teams[t].org == d.members[m].org
      && (t, m) in d.teamMembers && (t, c) in d.teamCapabilities
  }

  ghost predicate OnAnyTeam(d: Tables, m: MemberId, c: Capability) {
    exists t :: (t, m) in d.teamMembers && (t, c) in d.teamCapabilities
  }

  /** After, as requests are checked: the capability is active, and the member is
      an owner or admin or on a team of the organization that has it enabled. */
  ghost predicate MayUse(d: Tables, m: MemberId, c: Capability)
    requires m in d.members
  {
    HeldByOrg(d, m, c) && (d.members[m].admin || OnTeamOfOwnOrg(d, m, c))
  }

  /** After, as grants are listed: this query does not ask whose team it is. */
  ghost predicate Listed(d: Tables, m: MemberId, c: Capability)
    requires m in d.members
  {
    HeldByOrg(d, m, c) && (d.members[m].admin || OnAnyTeam(d, m, c))
  }

  /** The marketplace role that goes with c is derived from any membership. */
  ghost predicate DerivesRole(d: Tables, u: UserId, c: Capability) {
    exists m :: m in d.members && d.members[m].user == u && MayUse(d, m, c)
  }

  // ---- The backfill ---------------------------------------------------------------

  ghost predicate TeamsBackfilled(d: Tables, e: Tables, teamOf: map<Org, TeamId>) {
    // existing teams stay, and every team added is some organization's
    && (forall t :: t in d.teams ==> t in e.teams && e.teams[t] == d.teams[t])
    && (forall t :: t in e.teams && t !in d.teams ==> e.teams[t].org in teamOf && teamOf[e.teams[t].org] == t)
    && (forall o :: o in teamOf ==> teamOf[o] in e.teams && e.teams[teamOf[o]] == Team(o, ALL_MEMBERS))
    // an organization that had an "All members" team keeps using it
    && (forall o, t :: o in teamOf && t in d.teams && d.teams[t] == Team(o, ALL_MEMBERS) ==> teamOf[o] == t)
  }

  ghost predicate MembersBackfilled(d: Tables, e: Tables, teamOf: map<Org, TeamId>) {
    forall t, m :: (t, m) in e.teamMembers <==>
      (t, m) in d.teamMembers || (m in d.members && d.members[m].org in teamOf && t == teamOf[d.members[m].org])
  }

  ghost predicate CapabilitiesBackfilled(d: Tables, e: Tables, teamOf: map<Org, TeamId>) {
    forall t, c :: (t, c) in e.teamCapabilities <==>
      (t, c) in d.teamCapabilities || exists o :: o in teamOf && t == teamOf[o] && (o, c) in d.active
  }

  /** `e` is `d` after the organizations in `done` have been through the loop;
      `teamOf` says which team each one's rights went to. */
  ghost predicate IsBackfill(d: Tables, e: Tables, teamOf: map<Org, TeamId>, done: set<Org>) {
    && e.active == d.active && e.members == d.members && teamOf.Keys == done
    && TeamsBackfilled(d, e, teamOf)
    && MembersBackfilled(d, e, teamOf)
    && CapabilitiesBackfilled(d, e, teamOf)
  }

  /** Ids are handed out from a counter, standing in for gen_random_uuid(). */
  class Database {
    var tables: Tables
    var nextTeam: TeamId

    ghost predicate Valid()
      reads this
    {
      Consistent(tables) && forall t :: t in tables.teams ==> t < nextTeam
    }

    constructor (tables: Tables, nextTeam: TeamId)
      requires Consistent(tables) && forall t :: t in tables.teams ==> t < nextTeam
      ensures Valid() && this.tables == tables
    {
      this.tables, this.nextTeam := tables, nextTeam;
    }

    /** The organization's "All members" team, created when there is none. */
    method AllMembersTeam(org: Org) returns (team: TeamId)
      requires Valid()
      modifies this
      ensures Valid() && team in tables.teams && tables.teams[team] == Team(org, "All members")
      ensures tables == old(tables).(teams := old(tables.teams)[team := Team(org, ALL_MEMBERS)])
      ensures IsAllMembersTeam(old(tables), org, team)
    {
      if t :| t in tables.teams && tables.teams[t] == Team(org, ALL_MEMBERS) {
        team := t;
        assert tables.teams == tables.teams[team := Team(org, ALL_MEMBERS)];
      } else {
        team := nextTeam;
        tables := tables.(teams := tables.teams[team := Team(org, ALL_MEMBERS)]);
        nextTeam := nextTeam + 1;
      }
    }

    /** One turn of the loop: the team, then its members, then its capabilities,
        each leaving rows that are already there alone. */
    method BackfillOrg(org: Org) returns (team: TeamId)
      requires Valid()
      modifies this
      ensures Valid() && tables == WithOrg(old(tables), org, team)
      ensures IsAllMembersTeam(old(tables), org, team)
    {
      team := AllMembersTeam(org);
      tables := tables.(
        teamMembers := tables.teamMembers + set m | m in tables.members && tables.members[m].org == org :: (team, m));
      tables := tables.(
        teamCapabilities := tables.teamCapabilities + set x | x in tables.active && x.0 == org :: (team, x.1));
    }

    /** The organizations come in no particular order. */
    method Upgrade() returns (ghost teamOf: map<Org, TeamId>)
      requires Valid()
      modifies this
      ensures Valid()
      ensures IsBackfill(old(tables), tables, teamOf, ActiveOrgs(old(tables)))
      ensures AccessKept(old(tables), tables)
    {
      var pending := ActiveOrgs(tables);
      ghost var done := {};
      teamOf := map[];
      while pending != {}
        invariant Valid()
        invariant done + pending == ActiveOrgs(old(tables)) && done !! pending
        invariant IsBackfill(old(tables), tables, teamOf, done)
        decreases pending
      {
        var org :| org in pending;
        ghost var before := tables;
        var team := BackfillOrg(org);
        OneMoreOrg(old(tables), before, teamOf, done, org, team);
        pending := pending - {org};
        done := done + {org};
        teamOf := teamOf[org := team];
      }
      assert done == ActiveOrgs(old(tables));
      AccessPreserved(old(tables), tables, teamOf);
    }
  }

  /** The tables after one more turn of the loop. */
  function WithOrg(e: Tables, org: Org, team: TeamId): Tables {
    Tables(e.active, e.members, e.teams[team := Team(org, ALL_MEMBERS)],
           e.teamMembers + set m | m in e.members && e.members[m].org == org :: (team, m),
           e.teamCapabilities + set x | x in e.active && x.0 == org :: (team, x.1))
  }

  ghost predicate IsAllMembersTeam(e: Tables, org: Org, team: TeamId) {
    && (team in e.teams <==> exists t :: t in e.teams && e.teams[t] == Team(org, ALL_MEMBERS))
    && (team in e.teams ==> e.teams[team] == Team(org, ALL_MEMBERS))
  }

  lemma OneMoreOrg(d: Tables, e: Tables, teamOf: map<Org, TeamId>, done: set<Org>, org: Org, team: TeamId)
    requires Consistent(e) && IsBackfill(d, e, teamOf, done) && org !in done && IsAllMembersTeam(e, org, team)
    ensures IsBackfill(d, WithOrg(e, org, team), teamOf[org := team], done + {org})
  {
    OneMoreTeam(d, e, teamOf, org, team);
    OneMoreOrgsMembers(d, e, teamOf, org, team);
    OneMoreOrgsCapabilities(d, e, teamOf, org, team);
  }

  lemma OneMoreTeam(d: Tables, e: Tables, teamOf: map<Org, TeamId>, org: Org, team: TeamId)
    requires Consistent(e) && TeamsBackfilled(d, e, teamOf) && org !in teamOf && IsAllMembersTeam(e, org, team)
    ensures TeamsBackfilled(d, WithOrg(e, org, team), teamOf[org := team])
  {
    var f, after := WithOrg(e, org, team), teamOf[org := team];
    forall o, t | o in after && t in d.teams && d.teams[t] == Team(o, ALL_MEMBERS) ensures after[o] == t {
      assert e.teams[t] == d.teams[t];
    }
    forall t | t in f.teams && t !in d.teams ensures f.teams[t].org in after && after[f.teams[t].org] == t {
      if t != team {
        assert e.teams[t] == f.teams[t];
      }
    }
  }

  lemma OneMoreOrgsMembers(d: Tables, e: Tables, teamOf: map<Org, TeamId>, org: Org, team: TeamId)
    requires e.members == d.members && MembersBackfilled(d, e, teamOf) && org !in teamOf
    ensures MembersBackfilled(d, WithOrg(e, org, team), teamOf[org := team])
  {
  }

  lemma OneMoreOrgsCapabilities(d: Tables, e: Tables, teamOf: map<Org, TeamId>, org: Org, team: TeamId)
    requires e.active == d.active && CapabilitiesBackfilled(d, e, teamOf) && org !in teamOf
    ensures CapabilitiesBackfilled(d, WithOrg(e, org, team), teamOf[org := team])
  {
  }

  // ---- Nobody loses access, and nobody gains it --------------------------------------

  /** Whatever an organization has active, the team its rights went to is its own
      and grants it to each of its members. */
  lemma OwnTeamGrants(d: Tables, e: Tables, teamOf: map<Org, TeamId>, m: MemberId, c: Capability)
    requires IsBackfill(d, e, teamOf, ActiveOrgs(d)) && m in d.members && HeldByOrg(d, m, c)
    ensures OnTeamOfOwnOrg(e, m, c) && OnAnyTeam(e, m, c)
  {
    var o := d.members[m].org;
    assert (o, c).0 in ActiveOrgs(d);
    var t := teamOf[o];
    assert e.teams[t] == Team(o, ALL_MEMBERS);
    assert (t, m) in e.teamMembers && (t, c) in e.teamCapabilities;
  }

  /** After the backfill a member may use exactly the capabilities their
      organization had before, whatever teams existed and whoever sat on them,
      and the list of grants says the same. */
  lemma MemberKeepsAccess(d: Tables, e: Tables, teamOf: map<Org, TeamId>, m: MemberId, c: Capability)
    requires IsBackfill(d, e, teamOf, ActiveOrgs(d)) && m in d.members
    ensures MayUse(e, m, c) <==> HeldByOrg(d, m, c)
    ensures Listed(e, m, c) <==> HeldByOrg(d, m, c)
  {
    if HeldByOrg(d, m, c) {
      OwnTeamGrants(d, e, teamOf, m, c);
    }
  }

  /** Nobody loses access at the cutover, and nobody gains any. */
  ghost predicate AccessKept(d: Tables, e: Tables) {
    && e.members == d.members
    && forall m, c | m in d.members ::
         (MayUse(e, m, c) <==> HeldByOrg(d, m, c)) && (Listed(e, m, c) <==> HeldByOrg(d, m, c))
  }

  lemma AccessPreserved(d: Tables, e: Tables, teamOf: map<Org, TeamId>)
    requires IsBackfill(d, e, teamOf, ActiveOrgs(d))
    ensures AccessKept(d, e)
  {
    forall m, c | m in d.members
      ensures (MayUse(e, m, c) <==> HeldByOrg(d, m, c)) && (Listed(e, m, c) <==> HeldByOrg(d, m, c))
    {
      MemberKeepsAccess(d, e, teamOf, m, c);
    }
  }

  /** And so are derived roles, which a user may hold through any of several
      memberships. */
  lemma RolesPreserved(d: Tables, e: Tables, teamOf: map<Org, TeamId>, u: UserId, c: Capability)
    requires IsBackfill(d, e, teamOf, ActiveOrgs(d))
    ensures DerivesRole(e, u, c) <==> exists m :: m in d.members && d.members[m].user == u && HeldByOrg(d, m, c)
  {
    AccessPreserved(d, e, teamOf);
    if m :| m in d.members && d.members[m].user == u && HeldByOrg(d, m, c) {
      assert MayUse(e, m, c);
    }
  }

  // ---- Where the two readers differ -------------------------------------------------

  /** Member 7 of organization 0, on a team of organization 1 that has a capability
      active in both. */
  function Guest(): Tables {
    Tables({(0, Attestor), (1, Attestor)}, map[7 := Member(0, 3, false)], map[5 := Team(1, "Guests")],
           {(5, 7)}, {(5, Attestor)})
  }

  /** The list of grants does not ask whose team it is, and names a capability whose
      use is then refused. */
  lemma ListedButRefused()
    ensures Consistent(Guest()) && Listed(Guest(), 7, Attestor) && !MayUse(Guest(), 7, Attestor)
  {
    assert (5, 7) in Guest().teamMembers && (5, Attestor) in Guest().teamCapabilities;
  }

  /** The listing never falls short, and is exact where team rows stay within their
      organization. */
  lemma ListingIsExact(d: Tables, m: MemberId, c: Capability)
    requires Consistent(d) && m in d.members
    ensures MayUse(d, m, c) ==> Listed(d, m, c)
    ensures (forall t :: (t, m) in d.teamMembers ==> t in d.teams && d.teams[t].org == d.members[m].org) ==>
              (Listed(d, m, c) ==> MayUse(d, m, c))
  {
  }
}
