/** Team membership: the team store, `isPublic`, and the `joinTeam` and
    `createTeam` mutations as guarded updates returning a tagged response. */
module Teams {
  import opened Wrappers
  import opened Types
  import Auth

  /** A stored team; `password` and `salt` are null for a public team. */
  datatype Team = Team(id: nat, name: string, password: Option<string>, salt: Option<string>, image: string)

  /** A row of the user-to-team join table. */
  datatype UserToTeam = UserToTeam(userId: nat, teamId: nat, userIsAdmin: bool)

  /** The two tables, with the auto-increment counter of the team ids. */
  datatype TeamStore = TeamStore(teams: map<nat, Team>, members: set<UserToTeam>, nextId: nat)

  datatype TeamResponse = TeamResponse(ok: bool, msg: string, errors: seq<MutationError>, team: Option<Team>)

  /** The mutation's input: the team's name and an optional password. */
  datatype CreateTeamInput = CreateTeamInput(name: string, password: Option<string>)

  const DuplicateError := MutationError(Id, "Duplicado")
  const MissingError := MutationError(Id, "No existe")
  const AlreadyMemberMsg := "Ya eres parte del equipo!"
  const NoSuchTeamMsg := "El equipo no existe!"
  const WelcomeMsg := "Bienvenido a tu nuevo equipo: "
  const CreatedMsg := "Equipo Creado"
  /** `JSON.stringify` of a thrown `Error`, which has no enumerable own properties. */
  const ThrownMsg := "{}"

  /** The store's standing invariant: each team is stored under its own id, every
      id ever handed out is below the counter, a team has a password exactly
      when it has a salt, and a user appears at most once per team. */
  ghost predicate Valid(s: TeamStore) {
    && (forall k :: k in s.teams ==> s.teams[k].id == k && k < s.nextId)
    && (forall k :: k in s.teams ==> (s.teams[k].password.None? <==> s.teams[k].salt.None?))
    && (forall m :: m in s.members ==> m.teamId < s.nextId)
    && (forall m, m' :: m in s.members && m' in s.members && m.userId == m'.userId && m.teamId == m'.teamId ==> m == m')
  }

  /** The `isPublic` field resolver: a team is public when it has no password. */
  predicate IsPublic(team: Team) {
    team.password.None?
  }

  /** `userId` has a membership row for `teamId`. */
  predicate IsMember(s: TeamStore, userId: nat, teamId: nat) {
    exists m :: m in s.members && m.userId == userId && m.teamId == teamId
  }

  /** `joinTeam(id)` by the authenticated user `me`. The membership check runs
      before the team lookup. */
  function JoinTeam(s: TeamStore, me: AuthUser, id: nat): (r: (TeamResponse, TeamStore))
    ensures r.0.ok <==> !IsMember(s, me.id, id) && id in s.teams
    ensures IsMember(s, me.id, id) ==> r.0.errors == [DuplicateError] && r.1 == s
    ensures !IsMember(s, me.id, id) && id !in s.teams ==> r.0.errors == [MissingError] && r.1 == s
    ensures r.0.ok ==>
      && r.0.team == Some(s.teams[id])
      && r.0.errors == []
      && UserToTeam(me.id, id, false) !in s.members
      && r.1 == s.(members := s.members + {UserToTeam(me.id, id, false)})
    ensures id in s.teams ==> IsMember(r.1, me.id, id)
  {
    if IsMember(s, me.id, id) then
      (TeamResponse(false, AlreadyMemberMsg, [DuplicateError], None), s)
    else if id !in s.teams then
      (TeamResponse(false, NoSuchTeamMsg, [MissingError], None), s)
    else
      var team := s.teams[id];
      var row := UserToTeam(me.id, id, false);
      (TeamResponse(true, WelcomeMsg + team.name, [], Some(team)), s.(members := s.members + {row}))
  }

  /** `createTeam(data)` by `me`. `imageUrl` is what the upload returned; `env`,
      `kdf` and `random` are what `getEncryptedCredentials` draws on. A falsy
      password (absent or empty) makes a public team. */
  function CreateTeam(s: TeamStore, me: AuthUser, data: CreateTeamInput, imageUrl: string,
                      env: Auth.Env, kdf: Auth.Kdf, random: Auth.SaltBytes): (r: (TeamResponse, TeamStore))
    requires Valid(s)
    ensures !r.0.ok <==> Truthy(data.password) && !Auth.ProviderSecretsSet(env)
    ensures !r.0.ok ==> r.0.msg == ThrownMsg && r.1 == s
    ensures r.0.ok ==>
      && r.0.team.Some?
      && var t := r.0.team.value;
      && t.id !in s.teams
      && t.name == data.name
      && t.image == imageUrl
      && r.1.teams == s.teams[t.id := t]
      && r.1.members == s.members + {UserToTeam(me.id, t.id, true)}
      && !IsMember(s, me.id, t.id)
      && (IsPublic(t) <==> !Truthy(data.password))
      && (t.password.None? <==> t.salt.None?)
      && (Truthy(data.password) ==> Auth.VerifyPassword(kdf, data.password.value, t.password.value, t.salt.value))
      && (Truthy(data.password) ==>
            (Auth.GetEncryptedCredentials(env, kdf, random, data.password.value, false, false)
             == Success(Auth.Credentials(t.password.value, t.salt.value))))
  {
    if !Truthy(data.password) then
      SaveTeam(s, me, Team(s.nextId, data.name, None, None, imageUrl))
    else
      match Auth.GetEncryptedCredentials(env, kdf, random, data.password.value, false, false)
      case Failure(_) => (TeamResponse(false, ThrownMsg, [], None), s)
      case Success(c) => SaveTeam(s, me, Team(s.nextId, data.name, Some(c.password), Some(c.salt), imageUrl))
  }

  /** Saves a new team under the next id, then the creator's admin membership. */
  function SaveTeam(s: TeamStore, me: AuthUser, team: Team): (TeamResponse, TeamStore)
    requires team.id == s.nextId
  {
    var s' := TeamStore(s.teams[team.id := team], s.members + {UserToTeam(me.id, team.id, true)}, s.nextId + 1);
    (TeamResponse(true, CreatedMsg, [], Some(team)), s')
  }

  /** In a consistent store a team is public exactly when it carries no salt, so
      `isPublic` also tells whether there are credentials to check a password
      against; a private team's stored key is 88 characters of base64 text. */
  lemma PublicTeamsHaveNoCredentials(s: TeamStore, me: AuthUser, data: CreateTeamInput, imageUrl: string,
                                     env: Auth.Env, kdf: Auth.Kdf, random: Auth.SaltBytes, id: nat)
    requires Valid(s)
    ensures id in s.teams ==> (IsPublic(s.teams[id]) <==> s.teams[id].salt.None?)
    ensures var r := CreateTeam(s, me, data, imageUrl, env, kdf, random);
            r.0.ok ==>
              && (IsPublic(r.0.team.value) <==> r.0.team.value.salt.None?)
              && (!IsPublic(r.0.team.value) ==> |r.0.team.value.password.value| == 88)
  {
  }

  /** The duplicate check comes first: an existing membership is reported as a
      duplicate even when its team is no longer stored. */
  lemma DuplicateBeforeMissing(s: TeamStore, me: AuthUser, id: nat)
    requires IsMember(s, me.id, id) && id !in s.teams
    ensures JoinTeam(s, me, id).0.errors == [DuplicateError]
  {
  }

  /** Joining a second time reports a duplicate and changes nothing. */
  lemma JoinTwiceIsDuplicate(s: TeamStore, me: AuthUser, id: nat)
    requires JoinTeam(s, me, id).0.ok
    ensures var s' := JoinTeam(s, me, id).1;
            JoinTeam(s', me, id) == (TeamResponse(false, AlreadyMemberMsg, [DuplicateError], None), s')
  {
  }

  lemma JoinTeamPreservesValid(s: TeamStore, me: AuthUser, id: nat)
    requires Valid(s)
    ensures Valid(JoinTeam(s, me, id).1)
  {
  }

  /** After a successful creation the creator is the new team's only member,
      and an admin. */
  lemma CreatorIsSoleAdmin(s: TeamStore, me: AuthUser, data: CreateTeamInput, imageUrl: string,
                           env: Auth.Env, kdf: Auth.Kdf, random: Auth.SaltBytes)
    requires Valid(s)
    ensures var r := CreateTeam(s, me, data, imageUrl, env, kdf, random);
            r.0.ok ==>
              && Valid(r.1)
              && forall m :: m in r.1.members && m.teamId == r.0.team.value.id ==> m == UserToTeam(me.id, m.teamId, true)
  {
  }
}
