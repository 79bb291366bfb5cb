/**
  * `UserMapper`: the user built from the claims of an identity token, and the response
  * built from a user. The token's claims are a map from claim names to claim values;
  * the clock is an argument (`now`, in seconds).
  */
module UserMapper {
  import opened Wrappers
  import opened JavaStrings

  /** `User.Role` */
  datatype Role = USER | ADMIN | MODERATOR

  function RoleName(r: Role): string
  {
    match r
    case USER => "USER"
    case ADMIN => "ADMIN"
    case MODERATOR => "MODERATOR"
  }

  /** `Role.valueOf(s)`: the role whose name is exactly `s`, or the IllegalArgumentException. */
  function RoleValueOf(s: string): (r: Result<Role>)
    ensures r.Ok? <==> s in {"USER", "ADMIN", "MODERATOR"}
    ensures r.Ok? ==> RoleName(r.value) == s
    ensures r.Err? ==> r.msg == "No enum constant com.example.demo.model.User.Role." + s
  {
    if s == "USER" then Ok(USER)
    else if s == "ADMIN" then Ok(ADMIN)
    else if s == "MODERATOR" then Ok(MODERATOR)
    else Err("No enum constant com.example.demo.model.User.Role." + s)
  }

  /** Round trip: every role's name is looked up as that role. */
  lemma RoleValueOfName(r: Role)
    ensures RoleValueOf(RoleName(r)) == Ok(r)
  {
  }

  /** A claim value: a string, a collection (given by its elements' texts), or any other
      object (given by its `toString`). */
  datatype Claim = Str(s: string) | Many(items: seq<string>) | Other(text: string)

  /** The elements' texts separated by ", ". */
  function CommaList(items: seq<string>): string
  {
    if items == [] then "" else if |items| == 1 then items[0] else items[0] + ", " + CommaList(items[1..])
  }

  /** `claim.toString()`; a collection prints as "[a, b]". */
  function ClaimText(c: Claim): string
  {
    match c
    case Str(s) => s
    case Many(items) => "[" + CommaList(items) + "]"
    case Other(text) => text
  }

  /** The roles of a collection claim: `Role.valueOf` of each element, in order, the
      first unknown name failing the whole set. */
  function RolesOf(items: seq<string>): (r: Result<set<Role>>)
  {
    if items == [] then Ok({})
    else
      match RolesOf(items[..|items| - 1])
      case Err(e) => Err(e)
      case Ok(s) =>
        match RoleValueOf(items[|items| - 1])
        case Err(e) => Err(e)
        case Ok(x) => Ok(s + {x})
  }

  /** The collection gives a role set exactly when every element names a role, and the
      set then holds exactly the named roles (duplicates collapse). */
  lemma {:induction false} RolesOfExactly(items: seq<string>, x: Role)
    ensures RolesOf(items).Ok? <==> forall k :: 0 <= k < |items| ==> RoleValueOf(items[k]).Ok?
    ensures RolesOf(items).Ok? ==> (x in RolesOf(items).value <==> RoleName(x) in items)
  {
    if items != [] {
      var init := items[..|items| - 1];
      RolesOfExactly(init, x);
      assert forall k :: 0 <= k < |init| ==> init[k] == items[k];
      if RolesOf(items).Ok? && RoleName(x) in items {
        var k :| 0 <= k < |items| && items[k] == RoleName(x);
        if k < |init| {
          assert init[k] == RoleName(x);
        }
      }
    }
  }

  /** The fields of a user, as `fromTokenAttributes` leaves them (`None` is an unset
      field). */
  datatype UserData = UserData(id: Option<string>, keycloakId: Option<string>, firstName: Option<string>,
                               lastName: Option<string>, email: Option<string>, roles: Option<set<Role>>,
                               lastSeen: Option<int>)

  /** The text of a claim when it is present. */
  function ClaimOf(claims: map<string, Claim>, name: string): Option<string>
  {
    if name in claims then Some(ClaimText(claims[name])) else None
  }

  /** The user `fromTokenAttributes` builds from the claims at time `now`, or the error it
      throws: an invalid "sub" (`UUID.fromString`) or an unknown role (`Role.valueOf`). */
  function FromClaims(claims: map<string, Claim>, now: int): (r: Result<UserData>)
    ensures r.Ok? ==> r.value.lastSeen == Some(now)
    ensures r.Ok? && r.value.id.Some? ==> IsCanonicalUuid(r.value.id.value) && Lower(r.value.id.value) == r.value.id.value
  {
    var sub := ClaimOf(claims, "sub");
    if sub.Some? && ParseUuid(sub.value).None? then Err("Invalid UUID string: " + sub.value)
    else
      match RolesClaim(claims)
      case Err(e) => Err(e)
      case Ok(rs) =>
        var id := if sub.Some? then ParseUuid(sub.value) else None;
        Ok(UserData(id, sub, FirstNameOf(claims), ClaimOf(claims, "family_name"), ClaimOf(claims, "email"), rs, Some(now)))
  }

  /** "given_name", falling back to "nickname". */
  function FirstNameOf(claims: map<string, Claim>): Option<string>
  {
    if "given_name" in claims then ClaimOf(claims, "given_name") else ClaimOf(claims, "nickname")
  }

  /** The roles the "roles" claim sets (`None`: left unset), or the error of an unknown name. */
  function RolesClaim(claims: map<string, Claim>): Result<Option<set<Role>>>
  {
    if "roles" !in claims then Ok(Some({USER}))
    else match claims["roles"]
      case Str(s) => (match RoleValueOf(s) case Ok(x) => Ok(Some({x})) case Err(e) => Err(e))
      case Many(items) => (match RolesOf(items) case Ok(rs) => Ok(Some(rs)) case Err(e) => Err(e))
      case Other(_) => Ok(None)
  }

  /** "sub" sets both ids: the UUID it parses to, and the text as given; without "sub"
      neither is set. A "sub" that is not a UUID is the error. */
  lemma FromClaimsIdentity(claims: map<string, Claim>, now: int)
    ensures var r := FromClaims(claims, now);
      && ("sub" in claims && !IsCanonicalUuid(ClaimText(claims["sub"])) ==> r == Err("Invalid UUID string: " + ClaimText(claims["sub"])))
      && (r.Ok? && "sub" in claims ==>
            r.value.keycloakId == Some(ClaimText(claims["sub"])) && r.value.id == Some(Lower(ClaimText(claims["sub"]))))
      && (r.Ok? && "sub" !in claims ==> r.value.id.None? && r.value.keycloakId.None?)
  {
  }

  /** The first name is "given_name", or "nickname" when there is no "given_name", or
      unset; last name and e-mail are copied only when present. */
  lemma FromClaimsNames(claims: map<string, Claim>, now: int)
    requires FromClaims(claims, now).Ok?
    ensures var u := FromClaims(claims, now).value;
      && u.firstName == (if "given_name" in claims then Some(ClaimText(claims["given_name"]))
                         else if "nickname" in claims then Some(ClaimText(claims["nickname"])) else None)
      && (u.lastName.Some? <==> "family_name" in claims)
      && (u.email.Some? <==> "email" in claims)
  {
  }

  /** Roles: {USER} without a "roles" claim; the named role for a string; exactly the
      named roles for a collection, every element of which must name a role; unset for
      any other value. */
  lemma FromClaimsRoles(claims: map<string, Claim>, now: int, x: Role)
    requires "sub" !in claims || IsCanonicalUuid(ClaimText(claims["sub"]))
    ensures var r := FromClaims(claims, now);
      && ("roles" !in claims ==> r.Ok? && r.value.roles == Some({USER}))
      && ("roles" in claims && claims["roles"].Str? ==>
            (r.Ok? <==> RoleValueOf(claims["roles"].s).Ok?) && (r.Ok? ==> r.value.roles == Some({RoleValueOf(claims["roles"].s).value})))
      && ("roles" in claims && claims["roles"].Many? ==>
            (r.Ok? <==> forall k :: 0 <= k < |claims["roles"].items| ==> RoleValueOf(claims["roles"].items[k]).Ok?)
            && (r.Ok? ==> r.value.roles.Some? && (x in r.value.roles.value <==> RoleName(x) in claims["roles"].items)))
      && ("roles" in claims && claims["roles"].Other? ==> r.Ok? && r.value.roles.None?)
  {
    if "roles" in claims && claims["roles"].Many? {
      RolesOfExactly(claims["roles"].items, x);
    }
  }

  /** The names of a role set, in declaration order. */
  function RoleNames(rs: set<Role>): seq<string>
  {
    NamesOf(RolesIn(rs))
  }

  /** The roles of a set, in declaration order. */
  function RolesIn(rs: set<Role>): seq<Role>
  {
    (if USER in rs then [USER] else []) + (if ADMIN in rs then [ADMIN] else [])
      + (if MODERATOR in rs then [MODERATOR] else [])
  }

  /** The names of a list of roles. */
  function NamesOf(xs: seq<Role>): seq<string>
  {
    if xs == [] then [] else NamesOf(xs[..|xs| - 1]) + [RoleName(xs[|xs| - 1])]
  }

  /** The names of any list of roles parse back to the roles listed. */
  lemma {:induction false} NamesOfRoundTrip(xs: seq<Role>)
    ensures RolesOf(NamesOf(xs)) == Ok(set x | x in xs)
  {
    if xs != [] {
      var init := xs[..|xs| - 1];
      var last := xs[|xs| - 1];
      NamesOfRoundTrip(init);
      assert NamesOf(xs) == NamesOf(init) + [RoleName(last)];
      RoleValueOfName(last);
      RolesOfSnoc(NamesOf(init), RoleName(last), (set x | x in init), last);
      assert xs == init + [last];
      ElementsSnoc(init, last);
    } else {
      assert (set x | x in xs) == {};
    }
  }

  lemma ElementsSnoc<T>(init: seq<T>, last: T)
    ensures (set x | x in init + [last]) == (set x | x in init) + {last}
  {
  }

  /** One more element that names a role adds that role. */
  lemma RolesOfSnoc(items: seq<string>, s: string, rs: set<Role>, x: Role)
    requires RolesOf(items) == Ok(rs) && RoleValueOf(s) == Ok(x)
    ensures RolesOf(items + [s]) == Ok(rs + {x})
  {
    var all := items + [s];
    assert all[..|all| - 1] == items && all[|all| - 1] == s;
  }

  /** The claims an identity provider issues for a user's data. */
  function ClaimsOf(id: string, first: string, last: string, email: string, rs: set<Role>): map<string, Claim>
  {
    map["sub" := Str(id), "given_name" := Str(first), "family_name" := Str(last), "email" := Str(email),
        "roles" := Many(RoleNames(rs))]
  }

  /** Round trip: the claims issued for a user with a lower-case UUID map back to that
      user, whatever its role set. */
  lemma ClaimsRoundTrip(id: string, first: string, last: string, email: string, rs: set<Role>, now: int)
    requires IsCanonicalUuid(id) && Lower(id) == id
    ensures FromClaims(ClaimsOf(id, first, last, email, rs), now)
         == Ok(UserData(Some(id), Some(id), Some(first), Some(last), Some(email), Some(rs), Some(now)))
  {
    var claims := ClaimsOf(id, first, last, email, rs);
    ClaimsOfLookups(id, first, last, email, rs);
    RoleNamesRoundTrip(rs);
    assert RolesClaim(claims) == Ok(Some(rs));
    FromClaimsOfParts(claims, now, id, first, last, email, rs);
  }

  /** The claims issued for a user hold each of its fields under its claim name. */
  lemma ClaimsOfLookups(id: string, first: string, last: string, email: string, rs: set<Role>)
    ensures var claims := ClaimsOf(id, first, last, email, rs);
      && ClaimOf(claims, "sub") == Some(id) && FirstNameOf(claims) == Some(first)
      && ClaimOf(claims, "family_name") == Some(last) && ClaimOf(claims, "email") == Some(email)
      && "roles" in claims && claims["roles"] == Many(RoleNames(rs))
  {
  }

  /** The names of a role set parse back to that set. */
  lemma RoleNamesRoundTrip(rs: set<Role>)
    ensures RolesOf(RoleNames(rs)) == Ok(rs)
  {
    NamesOfRoundTrip(RolesIn(rs));
    RolesInExactly(rs);
  }

  lemma RolesInExactly(rs: set<Role>)
    ensures (set x | x in RolesIn(rs)) == rs
  {
    var xs := RolesIn(rs);
    forall x: Role ensures x in xs <==> x in rs {
      match x
      case USER =>
      case ADMIN =>
      case MODERATOR =>
    }
  }

  /** A user whose claims all read as given. */
  lemma FromClaimsOfParts(claims: map<string, Claim>, now: int, id: string, first: string, last: string,
                          email: string, rs: set<Role>)
    requires IsCanonicalUuid(id) && Lower(id) == id
    requires ClaimOf(claims, "sub") == Some(id) && FirstNameOf(claims) == Some(first)
    requires ClaimOf(claims, "family_name") == Some(last) && ClaimOf(claims, "email") == Some(email)
    requires RolesClaim(claims) == Ok(Some(rs))
    ensures FromClaims(claims, now) == Ok(UserData(Some(id), Some(id), Some(first), Some(last), Some(email), Some(rs), Some(now)))
  {
    assert ParseUuid(id) == Some(id);
  }

  /** `User`: the mapper fills a new user field by field. */
  class User {
    var id: Option<string>
    var keycloakId: Option<string>
    var firstName: Option<string>
    var lastName: Option<string>
    var email: Option<string>
    var roles: Option<set<Role>>
    var lastSeen: Option<int>

    /** `new User()`: every field unset. */
    constructor ()
      ensures Data() == UserData(None, None, None, None, None, None, None)
    {
      id, keycloakId, firstName, lastName, email, roles, lastSeen := None, None, None, None, None, None, None;
    }

    function Data(): UserData
      reads this
    {
      UserData(id, keycloakId, firstName, lastName, email, roles, lastSeen)
    }
  }

  /** `fromTokenAttributes(claims)`: a new user filled from the claims, or the exception
      that stops it. */
  method FromTokenAttributes(claims: map<string, Claim>, now: int) returns (r: Result<User>)
    ensures r.Ok? <==> FromClaims(claims, now).Ok?
    ensures r.Ok? ==> fresh(r.value) && r.value.Data() == FromClaims(claims, now).value
    ensures r.Err? ==> r.msg == FromClaims(claims, now).msg
  {
    var user := new User();
    if "sub" in claims {
      var sub := ClaimText(claims["sub"]);
      var id := ParseUuid(sub);
      if id.None? {
        return Err("Invalid UUID string: " + sub);
      }
      user.id := id;
      user.keycloakId := Some(sub);
    }
    ghost var sub := ClaimOf(claims, "sub");
    assert user.keycloakId == sub && user.id == (if sub.Some? then ParseUuid(sub.value) else None);
    if "given_name" in claims {
      user.firstName := Some(ClaimText(claims["given_name"]));
    } else if "nickname" in claims {
      user.firstName := Some(ClaimText(claims["nickname"]));
    }
    if "family_name" in claims {
      user.lastName := Some(ClaimText(claims["family_name"]));
    }
    if "email" in claims {
      user.email := Some(ClaimText(claims["email"]));
    }
    assert user.firstName == FirstNameOf(claims);
    assert user.lastName == ClaimOf(claims, "family_name") && user.email == ClaimOf(claims, "email");
    var roles := ReadRoles(claims);
    if roles.Err? {
      return Err(roles.msg);
    }
    if roles.value.Some? {
      user.roles := roles.value;
    }
    user.lastSeen := Some(now);
    return Ok(user);
  }

  /** The role handling of `fromTokenAttributes`: the roles to set, read element by
      element from a collection. */
  method ReadRoles(claims: map<string, Claim>) returns (r: Result<Option<set<Role>>>)
    ensures r == RolesClaim(claims)
  {
    if "roles" !in claims {
      return Ok(Some({USER}));
    }
    match claims["roles"]
    case Str(s) =>
      var role := RoleValueOf(s);
      if role.Err? {
        return Err(role.msg);
      }
      return Ok(Some({role.value}));
    case Many(items) =>
      var roleSet: set<Role> := {};
      for i := 0 to |items|
        invariant RolesOf(items[..i]) == Ok(roleSet)
      {
        assert items[..i + 1][..i] == items[..i];
        var role := RoleValueOf(items[i]);
        if role.Err? {
          RolesOfFails(items, i);
          return Err(role.msg);
        }
        roleSet := roleSet + {role.value};
      }
      assert items[..|items|] == items;
      return Ok(Some(roleSet));
    case Other(_) =>
      return Ok(None);
  }

  /** The first unknown element fails the whole collection with its own message. */
  lemma {:induction false} RolesOfFails(items: seq<string>, i: nat)
    requires i < |items| && RolesOf(items[..i]).Ok? && RoleValueOf(items[i]).Err?
    ensures RolesOf(items) == Err(RoleValueOf(items[i]).msg)
    decreases |items|
  {
    var n := |items| - 1;
    if i == n {
      assert items[..n] == items[..i];
    } else {
      assert items[..n][..i] == items[..i];
      RolesOfFails(items[..n], i);
    }
  }

  /** How long a user counts as online after their last activity: five minutes. */
  const OnlineWindow: int := 5 * 60

  /** `UserResponse` */
  datatype UserResponse = UserResponse(userId: Option<string>, firstName: Option<string>, lastName: Option<string>,
                                       email: Option<string>, lastSeen: Option<int>, isOnline: bool,
                                       roles: Option<set<Role>>)

  /** `isUserOnline()`: last seen strictly within the last five minutes. */
  predicate IsUserOnline(lastSeen: Option<int>, now: int)
    ensures IsUserOnline(lastSeen, now) <==> lastSeen.Some? && now - lastSeen.value < OnlineWindow
  {
    lastSeen.Some? && lastSeen.value > now - OnlineWindow
  }

  /** `toUserResponse(user)`: the user's id as `userId`, the other fields copied as they
      are, and whether the user is online at `now`. */
  function ToUserResponse(u: User, now: int): (r: UserResponse)
    reads u
    ensures r.userId == u.id && r.firstName == u.firstName && r.lastName == u.lastName && r.email == u.email
    ensures r.lastSeen == u.lastSeen && r.roles == u.roles
    ensures r.isOnline <==> u.lastSeen.Some? && now - u.lastSeen.value < OnlineWindow
  {
    UserResponse(u.id, u.firstName, u.lastName, u.email, u.lastSeen, IsUserOnline(u.lastSeen, now), u.roles)
  }

  /** A user just mapped from a token shows as online, with the token's identity. */
  lemma MappedUserIsOnline(d: UserData, now: int)
    requires d.lastSeen == Some(now)
    ensures IsUserOnline(d.lastSeen, now) && !IsUserOnline(d.lastSeen, now + OnlineWindow)
  {
  }
}
