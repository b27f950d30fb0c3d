/**
 * Login profiles: a profile names an API endpoint, a token and a default project,
 * plus the organization slug and project name fetched from the server; the
 * profile manager keeps the list of profiles and the name of the current one.
 */
module Config {
  import opened Wrappers
  import opened Strings

  datatype ProfileError = EmptyName | BadEndpoint | EmptyToken | EmptyProject

  datatype AuthError = OrgSlugFailed | ProjectNameFailed

  const OpenApiPrefix: string := "https://openapi."
  const DevEndpoint: string := "https://openapi.api.coscene.dev"
  const DevBaseUrl: string := "https://home.coscene.dev"

  /** One line of the verbose listing: the caption left-justified in 20 columns, a space, the value. */
  function Row(caption: string, value: string): (r: string)
    requires |caption| <= 20
    ensures |r| == 22 + |value|
    ensures r[..|caption|] == caption && (forall i :: |caption| <= i <= 20 ==> r[i] == ' ')
    ensures r[21..|r| - 1] == value && r[|r| - 1] == '\n'
  {
    PadField(caption, -20) + " " + value + "\n"
  }

  /**
   * What Auth reports for a profile holding `org` and `projectName`: the organization is fetched
   * only when it is missing, and its failure stops everything; the project name is fetched only
   * when it is missing.
   */
  function AuthVerdict(org: string, projectName: string, projectSlug: string,
                       orgSlug: Option<string>, projectNameOf: string -> Option<string>): Option<AuthError>
  {
    if org == "" && orgSlug.None? then Some(OrgSlugFailed)
    else if projectName == "" && projectNameOf(projectSlug).None? then Some(ProjectNameFailed)
    else None
  }

  /** The organization after Auth: kept when set, otherwise the fetched slug (empty when that failed). */
  function AuthedOrg(org: string, orgSlug: Option<string>): string {
    if org != "" then org else orgSlug.GetOr("")
  }

  /** The project name after Auth: fetched only when missing and only when Auth succeeds. */
  function AuthedProjectName(org: string, projectName: string, projectSlug: string,
                             orgSlug: Option<string>, projectNameOf: string -> Option<string>): string
  {
    if projectName != "" || AuthVerdict(org, projectName, projectSlug, orgSlug, projectNameOf).Some? then projectName
    else projectNameOf(projectSlug).value
  }

  class Profile {
    const name: string
    const endPoint: string
    const token: string
    const projectSlug: string
    /** Filled in from the server by Auth when empty. */
    var org: string
    var projectName: string

    constructor (name: string, endPoint: string, token: string, projectSlug: string, org: string, projectName: string)
      ensures this.name == name && this.endPoint == endPoint && this.token == token && this.projectSlug == projectSlug
      ensures this.org == org && this.projectName == projectName
    {
      this.name := name;
      this.endPoint := endPoint;
      this.token := token;
      this.projectSlug := projectSlug;
      this.org := org;
      this.projectName := projectName;
    }

    /** The name, starred or not; or the four labelled lines of the verbose listing. */
    function StringWithOpts(withStar: bool, verbose: bool): (r: string)
      reads this
      ensures !verbose ==> StartsWith(r, name) && |r| == |name| + (if withStar then 4 else 0)
      ensures !verbose && withStar ==> r[|name|..] == " (*)"
      ensures verbose ==>
        r == Row("Profile Name:", name + (if withStar then " (*)" else "")) +
             Row("Endpoint:", endPoint) + Row("Organization:", org) + Row("Default Project:", projectSlug)
    {
      var star := if withStar then " (*)" else "";
      if !verbose then name + star
      else
        Row("Profile Name:", name + star) + Row("Endpoint:", endPoint) +
        Row("Organization:", org) + Row("Default Project:", projectSlug)
    }

    /** The first failed check, in the order name, endpoint, token, project. */
    function Validate(): (r: Option<ProfileError>)
      ensures r.None? <==> name != "" && StartsWith(endPoint, OpenApiPrefix) && token != "" && projectSlug != ""
      ensures r == Some(EmptyName) <==> name == ""
      ensures r == Some(BadEndpoint) <==> name != "" && !StartsWith(endPoint, OpenApiPrefix)
      ensures r == Some(EmptyToken) <==> name != "" && StartsWith(endPoint, OpenApiPrefix) && token == ""
    {
      if name == "" then Some(EmptyName)
      else if !StartsWith(endPoint, OpenApiPrefix) then Some(BadEndpoint)
      else if token == "" then Some(EmptyToken)
      else if projectSlug == "" then Some(EmptyProject)
      else None
    }

    predicate CheckAuth()
      reads this
    {
      org != "" && projectName != ""
    }

    /** The web site of the endpoint: the dev endpoint has its own host; any other drops
        the "openapi." prefix of its host. */
    function GetBaseUrl(): (r: string)
      ensures StartsWith(r, "https://")
      ensures endPoint == DevEndpoint ==> r == DevBaseUrl
      ensures endPoint != DevEndpoint && StartsWith(endPoint, OpenApiPrefix) ==> r == "https://" + endPoint[|OpenApiPrefix|..]
      ensures !StartsWith(endPoint, OpenApiPrefix) ==> r == "https://" + endPoint
    {
      if endPoint == DevEndpoint then DevBaseUrl
      else "https://" + TrimPrefix(endPoint, OpenApiPrefix)
    }

    /**
     * Auth: fetches the organization slug (`orgSlug`) if `org` is empty, then the project name of the
     * default project (`projectNameOf`) if `projectName` is empty; a field already set is never
     * fetched nor overwritten, and a fetch that fails stops with what was filled so far.
     */
    method Auth(orgSlug: Option<string>, projectNameOf: string -> Option<string>) returns (err: Option<AuthError>)
      modifies this
      ensures old(org) != "" ==> org == old(org)
      ensures old(projectName) != "" ==> projectName == old(projectName)
      ensures old(org) == "" ==> org == orgSlug.GetOr("")
      ensures err == Some(OrgSlugFailed) <==> old(org) == "" && orgSlug.None?
      ensures err == Some(ProjectNameFailed) <==>
        (old(org) != "" || orgSlug.Some?) && old(projectName) == "" && projectNameOf(projectSlug).None?
      ensures old(projectName) == "" && err.None? ==> projectName == projectNameOf(projectSlug).value
      ensures err.Some? ==> projectName == old(projectName)
      ensures (err.None? && (orgSlug.Some? ==> orgSlug.value != "") &&
               (projectNameOf(projectSlug).Some? ==> projectNameOf(projectSlug).value != "")) ==> CheckAuth()
      ensures err == AuthVerdict(old(org), old(projectName), projectSlug, orgSlug, projectNameOf)
      ensures org == AuthedOrg(old(org), orgSlug)
      ensures projectName == AuthedProjectName(old(org), old(projectName), projectSlug, orgSlug, projectNameOf)
    {
      if org == "" {
        match orgSlug {
          case None => return Some(OrgSlugFailed);
          case Some(slug) => org := slug;
        }
      }
      if projectName == "" {
        match projectNameOf(projectSlug) {
          case None => return Some(ProjectNameFailed);
          case Some(n) => projectName := n;
        }
      }
      return None;
    }
  }

  function Names(ps: seq<Profile>): (r: seq<string>)
    ensures |r| == |ps| && forall i :: 0 <= i < |ps| ==> r[i] == ps[i].name
  {
    if ps == [] then [] else [ps[0].name] + Names(ps[1..])
  }

  /** The names of one more profile are the names so far and its name. */
  lemma NamesPrefix(ps: seq<Profile>, i: nat)
    requires i < |ps|
    ensures Names(ps[..i + 1]) == Names(ps[..i]) + [ps[i].name]
    ensures forall k :: k in Names(ps[..i + 1]) <==> k in Names(ps[..i]) || k == ps[i].name
  {
    assert Names(ps[..i + 1])[..i] == Names(ps[..i]);
  }

  datatype ManagerError =
    | DuplicateName(name: string)
    | InvalidProfile(error: ProfileError)
    | CurrentNotFound(current: string)
    | AddInvalid(error: ProfileError)
    | AddAuthFailed(authError: AuthError)
    | ManagerInvalid(managerError: ManagerError)
    | ProfileNotFound(name: string)
    | SwitchInvalid(managerError: ManagerError)
    | SwitchAuthFailed(authError: AuthError)

  /** The first problem the validation loop meets among the first `n` profiles: a name seen before,
      or a profile failing its own validation. */
  function ProblemIn(ps: seq<Profile>, n: nat): Option<ManagerError>
    requires n <= |ps|
  {
    if n == 0 then None
    else if ProblemIn(ps, n - 1).Some? then ProblemIn(ps, n - 1)
    else if ps[n - 1].name in Names(ps[..n - 1]) then Some(DuplicateName(ps[n - 1].name))
    else if ps[n - 1].Validate().Some? then Some(InvalidProfile(ps[n - 1].Validate().value))
    else None
  }

  /** The verdict of ProfileManager.Validate for profiles `ps` and current profile `current`. */
  function ValidateResult(ps: seq<Profile>, current: string): Option<ManagerError> {
    if ProblemIn(ps, |ps|).Some? then ProblemIn(ps, |ps|)
    else if |ps| > 0 && current !in Names(ps) then Some(CurrentNotFound(current))
    else if |ps| == 0 && current != "" then Some(CurrentNotFound(current))
    else None
  }

  predicate NoDuplicateNames(ps: seq<Profile>) {
    forall i, j :: 0 <= i < j < |ps| ==> ps[i].name != ps[j].name
  }

  /** Appending a profile keeps the names distinct exactly when its name is new. */
  lemma NoDuplicatesSnoc(prefix: seq<Profile>, p: Profile)
    ensures NoDuplicateNames(prefix + [p]) <==> NoDuplicateNames(prefix) && p.name !in Names(prefix)
  {
    var s := prefix + [p];
    if NoDuplicateNames(s) {
      forall i, j | 0 <= i < j < |prefix|
        ensures prefix[i].name != prefix[j].name
      {
        assert s[i] == prefix[i] && s[j] == prefix[j];
      }
      forall i | 0 <= i < |prefix|
        ensures Names(prefix)[i] != p.name
      {
        assert s[i].name != s[|prefix|].name;
      }
    }
    if NoDuplicateNames(prefix) && p.name !in Names(prefix) {
      forall i, j | 0 <= i < j < |s|
        ensures s[i].name != s[j].name
      {
        if j == |prefix| {
          assert Names(prefix)[i] == prefix[i].name;
        } else {
          assert s[i] == prefix[i] && s[j] == prefix[j];
        }
      }
    }
  }

  lemma {:induction false} ProblemInNoneIff(ps: seq<Profile>, n: nat)
    requires n <= |ps|
    ensures ProblemIn(ps, n).None? <==>
      NoDuplicateNames(ps[..n]) && forall i :: 0 <= i < n ==> ps[i].Validate().None?
  {
    if n > 0 {
      ProblemInNoneIff(ps, n - 1);
      var prefix := ps[..n - 1];
      assert ps[..n] == prefix + [ps[n - 1]];
      NoDuplicatesSnoc(prefix, ps[n - 1]);
      ValidUpTo(ps, n);
    }
  }

  lemma ValidUpTo(ps: seq<Profile>, n: nat)
    requires 0 < n <= |ps|
    ensures (forall i :: 0 <= i < n ==> ps[i].Validate().None?) <==>
      (forall i :: 0 <= i < n - 1 ==> ps[i].Validate().None?) && ps[n - 1].Validate().None?
  {
  }


  /** Once the validation loop has met a problem, that problem is its verdict. */
  lemma {:induction false} ProblemPersists(ps: seq<Profile>, n: nat, m: nat)
    requires n <= m <= |ps| && ProblemIn(ps, n).Some?
    ensures ProblemIn(ps, m) == ProblemIn(ps, n)
    decreases m - n
  {
    if n < m {
      ProblemPersists(ps, n, m - 1);
    }
  }

  /**
   * The profile manager is valid exactly when names are unique, every profile validates, and the
   * current profile names one of them (or is empty when there are none).
   */
  lemma ValidateIff(ps: seq<Profile>, current: string)
    ensures ValidateResult(ps, current).None? <==>
      NoDuplicateNames(ps) && (forall i :: 0 <= i < |ps| ==> ps[i].Validate().None?) &&
      (if |ps| > 0 then current in Names(ps) else current == "")
  {
    ProblemInNoneIff(ps, |ps|);
    assert ps[..|ps|] == ps;
  }

  /** The index of the first profile named `name`, if any. */
  function FirstNamed(ps: seq<Profile>, name: string): (r: Option<nat>)
    ensures r.Some? ==>
      r.value < |ps| && ps[r.value].name == name && forall j :: 0 <= j < r.value ==> ps[j].name != name
    ensures r.None? <==> name !in Names(ps)
  {
    if ps == [] then None
    else if ps[0].name == name then Some(0)
    else
      match FirstNamed(ps[1..], name)
      case None => None
      case Some(i) => Some(i + 1)
  }

  /** The first profile named `name` is at `i` when it is named so and none before it is. */
  lemma FirstNamedAt(ps: seq<Profile>, name: string, i: nat)
    requires i < |ps| && ps[i].name == name
    requires forall j :: 0 <= j < i ==> ps[j].name != name
    ensures FirstNamed(ps, name) == Some(i)
  {
    assert Names(ps)[i] == name;
  }

  /** No profile is named `name` when none of them is. */
  lemma NoneNamed(ps: seq<Profile>, name: string)
    requires forall j :: 0 <= j < |ps| ==> ps[j].name != name
    ensures FirstNamed(ps, name).None?
  {
  }

  class ProfileManager {
    var currentProfile: string
    var profiles: seq<Profile>

    constructor (currentProfile: string, profiles: seq<Profile>)
      ensures this.currentProfile == currentProfile && this.profiles == profiles
    {
      this.currentProfile := currentProfile;
      this.profiles := profiles;
    }

    /** Validate: one pass over the profiles with the set of names seen so far, then the
        current-profile checks. */
    method Validate() returns (err: Option<ManagerError>)
      ensures err == ValidateResult(profiles, currentProfile)
    {
      var seen: set<string> := {};
      var i := 0;
      while i < |profiles|
        invariant 0 <= i <= |profiles|
        invariant forall k :: k in seen <==> k in Names(profiles[..i])
        invariant i == 0 ==> seen == {}
        invariant i > 0 ==> profiles[0].name in seen
        invariant ProblemIn(profiles, i).None?
      {
        var p := profiles[i];
        NamesPrefix(profiles, i);
        if p.name in seen {
          ProblemPersists(profiles, i + 1, |profiles|);
          return Some(DuplicateName(p.name));
        }
        seen := seen + {p.name};
        var verdict := p.Validate();
        if verdict.Some? {
          ProblemPersists(profiles, i + 1, |profiles|);
          return Some(InvalidProfile(verdict.value));
        }
        i := i + 1;
      }
      assert profiles[..i] == profiles;
      if |seen| > 0 && currentProfile !in seen {
        return Some(CurrentNotFound(currentProfile));
      }
      if |seen| == 0 && currentProfile != "" {
        return Some(CurrentNotFound(currentProfile));
      }
      return None;
    }

    function IsEmpty(): (r: bool)
      reads this
      ensures r <==> Names(profiles) == []
    {
      |profiles| == 0
    }

    /** GetCurrentProfile: the first profile named like the current one, or nil. */
    method GetCurrentProfile() returns (p: Option<Profile>)
      ensures p.Some? <==> currentProfile in Names(profiles)
      ensures p.Some? ==> p.value == profiles[FirstNamed(profiles, currentProfile).value]
    {
      var i := 0;
      while i < |profiles|
        invariant 0 <= i <= |profiles|
        invariant forall j :: 0 <= j < i ==> profiles[j].name != currentProfile
      {
        if profiles[i].name == currentProfile {
          return Some(profiles[i]);
        }
        i := i + 1;
      }
      return None;
    }

    /**
     * AddProfile: a profile that fails its own validation or its Auth is not added; otherwise it is
     * appended (becoming current when none is), and the whole manager is validated, so a duplicate
     * name is reported but stays in the list.
     */
    method AddProfile(profile: Profile, orgSlug: Option<string>, projectNameOf: string -> Option<string>)
      returns (err: Option<ManagerError>)
      modifies this, profile
      ensures profile.Validate().Some? ==>
        err == Some(AddInvalid(profile.Validate().value)) && profiles == old(profiles) &&
        currentProfile == old(currentProfile) && unchanged(profile)
      ensures profile.Validate().None? ==>
        profile.org == AuthedOrg(old(profile.org), orgSlug) &&
        profile.projectName ==
          AuthedProjectName(old(profile.org), old(profile.projectName), profile.projectSlug, orgSlug, projectNameOf)
      ensures var verdict := AuthVerdict(old(profile.org), old(profile.projectName), profile.projectSlug, orgSlug, projectNameOf);
        profile.Validate().None? && verdict.Some? ==>
        err == Some(AddAuthFailed(verdict.value)) && profiles == old(profiles) && currentProfile == old(currentProfile)
      ensures var verdict := AuthVerdict(old(profile.org), old(profile.projectName), profile.projectSlug, orgSlug, projectNameOf);
        profile.Validate().None? && verdict.None? ==>
        profiles == old(profiles) + [profile] &&
        currentProfile == (if old(currentProfile) == "" then profile.name else old(currentProfile)) &&
        err == (match ValidateResult(profiles, currentProfile)
                case None => None
                case Some(e) => Some(ManagerInvalid(e))) &&
        (profile.name in Names(old(profiles)) ==> err.Some?)
    {
      var verdict := profile.Validate();
      if verdict.Some? {
        return Some(AddInvalid(verdict.value));
      }
      var authErr := profile.Auth(orgSlug, projectNameOf);
      if authErr.Some? {
        return Some(AddAuthFailed(authErr.value));
      }
      profiles := profiles + [profile];
      if currentProfile == "" {
        currentProfile := profile.name;
      }
      var managerErr := Validate();
      if profile.name in Names(old(profiles)) {
        DuplicateRejected(old(profiles), profile, currentProfile);
      }
      if managerErr.Some? {
        return Some(ManagerInvalid(managerErr.value));
      }
      return None;
    }

    /**
     * DeleteProfile: removes the first profile with that name, keeping the others in order; if it
     * was current, the new first profile becomes current, which panics when none is left.
     */
    method DeleteProfile(name: string) returns (err: Option<ManagerError>, panicked: bool)
      modifies this
      ensures name !in Names(old(profiles)) ==>
        err == Some(ProfileNotFound(name)) && !panicked && profiles == old(profiles) && currentProfile == old(currentProfile)
      ensures name in Names(old(profiles)) ==>
        var i := FirstNamed(old(profiles), name).value;
        err.None? && profiles == old(profiles)[..i] + old(profiles)[i + 1..] &&
        (panicked <==> old(currentProfile) == name && profiles == []) &&
        (!panicked ==> currentProfile == if old(currentProfile) == name then profiles[0].name else old(currentProfile))
    {
      panicked := false;
      var i := 0;
      while i < |profiles|
        invariant 0 <= i <= |profiles|
        invariant profiles == old(profiles) && currentProfile == old(currentProfile)
        invariant forall j :: 0 <= j < i ==> profiles[j].name != name
      {
        if profiles[i].name == name {
          FirstNamedAt(profiles, name, i);
          profiles := profiles[..i] + profiles[i + 1..];
          if currentProfile == name {
            if |profiles| == 0 {
              panicked := true;
              return None, true;
            }
            currentProfile := profiles[0].name;
          }
          return None, false;
        }
        i := i + 1;
      }
      NoneNamed(profiles, name);
      return Some(ProfileNotFound(name)), false;
    }

    /**
     * SwitchProfile: an unknown name is an error that changes nothing; a known name becomes current
     * at once, and only then is the manager validated and the (new) current profile authorized, so
     * the switch stays even when either fails.
     */
    method SwitchProfile(name: string, orgSlug: Option<string>, projectNameOf: string -> Option<string>)
      returns (err: Option<ManagerError>)
      modifies this, profiles
      ensures profiles == old(profiles)
      ensures name !in Names(profiles) ==>
        err == Some(ProfileNotFound(name)) && currentProfile == old(currentProfile) && unchanged(profiles)
      ensures name in Names(profiles) ==> currentProfile == name
      ensures name in Names(profiles) && ValidateResult(profiles, name).Some? ==>
        err == Some(SwitchInvalid(ValidateResult(profiles, name).value)) && unchanged(profiles)
      ensures err.Some? && err.value.SwitchAuthFailed? ==> name in Names(profiles)
      ensures name in Names(profiles) && ValidateResult(profiles, name).None? ==>
        var p := profiles[FirstNamed(profiles, name).value];
        var verdict := AuthVerdict(old(p.org), old(p.projectName), p.projectSlug, orgSlug, projectNameOf);
        err == (if verdict.Some? then Some(SwitchAuthFailed(verdict.value)) else None) &&
        p.org == AuthedOrg(old(p.org), orgSlug) &&
        p.projectName == AuthedProjectName(old(p.org), old(p.projectName), p.projectSlug, orgSlug, projectNameOf)
      ensures forall k :: 0 <= k < |profiles| && profiles[k] != profiles[FirstNamed(profiles, name).GetOr(0)] ==>
        unchanged(profiles[k])
    {
      var i := 0;
      while i < |profiles|
        invariant 0 <= i <= |profiles|
        invariant forall j :: 0 <= j < i ==> profiles[j].name != name
      {
        if profiles[i].name == name {
          FirstNamedAt(profiles, name, i);
          currentProfile := name;
          var managerErr := Validate();
          if managerErr.Some? {
            return Some(SwitchInvalid(managerErr.value));
          }
          var current := GetCurrentProfile();
          var authErr := current.value.Auth(orgSlug, projectNameOf);
          if authErr.Some? {
            return Some(SwitchAuthFailed(authErr.value));
          }
          return None;
        }
        i := i + 1;
      }
      NoneNamed(profiles, name);
      return Some(ProfileNotFound(name));
    }
  }

  /** A name already present makes validation fail once a profile with that name is appended. */
  lemma DuplicateRejected(ps: seq<Profile>, p: Profile, current: string)
    requires p.name in Names(ps)
    ensures ValidateResult(ps + [p], current).Some?
  {
    var qs := ps + [p];
    ValidateIff(qs, current);
    var i :| 0 <= i < |ps| && Names(ps)[i] == p.name;
    assert qs[i].name == qs[|ps|].name;
  }
}
