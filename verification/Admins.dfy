/**
 The guards that keep the last administrator: creating, updating and deleting users.

 The guards look at the stored role and at `is_active`, so they keep an administrator through
 every run of requests that leave roles alone. An update that also changes the role is not
 guarded; the lemmas say exactly when such an update loses the last one.
 */
module Admins {
  import opened Options

  datatype User = User(role: string, active: bool)

  type Users = map<string, User>

  const SUPERADMIN := "superadmin"
  const ADMIN := "admin"

  function Holders(users: Users, role: string): set<string> {
    set id | id in users && users[id].active && users[id].role == role
  }

  function ActiveCount(users: Users, role: string): nat {
    |Holders(users, role)|
  }

  /** Some active superadmin or admin is left. */
  predicate Governed(users: Users) {
    Holders(users, SUPERADMIN) != {} || Holders(users, ADMIN) != {}
  }

  predicate HasSuperadmin(users: Users) {
    Holders(users, SUPERADMIN) != {}
  }

  datatype Request =
    | Create(id: string, role: string)
    | Update(id: string, newRole: Option<string>, active: Option<bool>)
    | Delete(id: string)

  /** What the handler learns besides the user table. */
  datatype Caller = Caller(id: string, managesSuperusers: bool)

  datatype Response = Done | NotFound | Forbidden | Conflict | LastSuperadmin | LastAdmin | OwnAccount

  /** The two guards, shared by deactivation and deletion. */
  function Guard(users: Users, role: string): Option<Response> {
    if role == SUPERADMIN && ActiveCount(users, SUPERADMIN) <= 1 then Some(LastSuperadmin)
    else if role == ADMIN && ActiveCount(users, SUPERADMIN) == 0 && ActiveCount(users, ADMIN) <= 1 then Some(LastAdmin)
    else None
  }

  /** `taken` says whether the new name or address belongs to somebody else. */
  function Answer(users: Users, caller: Caller, req: Request, taken: bool): Response {
    match req
    case Create(id, role) =>
      if taken || id in users then Conflict else Done
    case Update(id, role, active) =>
      if id !in users then NotFound
      else if users[id].role == SUPERADMIN && !caller.managesSuperusers then Forbidden
      else if role == Some(SUPERADMIN) && !caller.managesSuperusers then Forbidden
      else if taken then Conflict
      else if active == Some(false) && Guard(users, users[id].role).Some? then Guard(users, users[id].role).value
      else Done
    case Delete(id) =>
      if id == caller.id then OwnAccount
      else if id !in users then NotFound
      else if users[id].role == SUPERADMIN && !caller.managesSuperusers then Forbidden
      else if Guard(users, users[id].role).Some? then Guard(users, users[id].role).value
      else Done
  }

  function Applied(users: Users, req: Request): Users
    requires req.Update? ==> req.id in users
  {
    match req
    case Create(id, role) => users[id := User(role, true)]
    case Update(id, role, active) =>
      var u := users[id];
      // an empty role in the request counts as no role
      users[id := User(if role.Some? && role.value != "" then role.value else u.role,
                       if active.Some? then active.value else u.active)]
    case Delete(id) => users - {id}
  }

  function Step(users: Users, caller: Caller, req: Request, taken: bool): Users {
    if Answer(users, caller, req, taken) == Done then Applied(users, req) else users
  }

  datatype Call = Call(caller: Caller, req: Request, taken: bool)

  function Run(users: Users, calls: seq<Call>): Users
    decreases |calls|
  {
    if calls == [] then users else Run(Step(users, calls[0].caller, calls[0].req, calls[0].taken), calls[1..])
  }

  predicate KeepsRoles(req: Request) {
    req.Update? ==> req.newRole.None? || req.newRole.value == ""
  }

  lemma {:induction false} OtherHolderSurvives(users: Users, role: string, id: string)
    requires ActiveCount(users, role) >= 2
    ensures exists other :: other != id && other in Holders(users, role)
  {
    var holders := Holders(users, role);
    assert |holders - {id}| >= |holders| - 1;
    var other :| other in holders - {id};
  }

  lemma {:induction false} StepKeepsAdministrator(users: Users, caller: Caller, req: Request, taken: bool)
    requires KeepsRoles(req)
    ensures HasSuperadmin(users) ==> HasSuperadmin(Step(users, caller, req, taken))
    ensures Governed(users) ==> Governed(Step(users, caller, req, taken))
  {
    var users' := Step(users, caller, req, taken);
    if users' != users {
      forall role | role == SUPERADMIN || role == ADMIN
        ensures forall id :: id in Holders(users, role) && id != req.id ==> id in Holders(users', role)
      {}
      if !req.Create? {
        var role := users[req.id].role;
        if ActiveCount(users, SUPERADMIN) >= 2 {
          OtherHolderSurvives(users, SUPERADMIN, req.id);
        }
        if ActiveCount(users, ADMIN) >= 2 {
          OtherHolderSurvives(users, ADMIN, req.id);
        }
        if role != SUPERADMIN && Holders(users, SUPERADMIN) != {} {
          var s :| s in Holders(users, SUPERADMIN);
          assert s in Holders(users', SUPERADMIN);
        }
        if role != ADMIN && Holders(users, ADMIN) != {} {
          var a :| a in Holders(users, ADMIN);
          assert a in Holders(users', ADMIN);
        }
      }
    }
  }

  /**
   Over every run of creations, deletions and role-keeping updates an administrator remains, and a superadmin if
   there was one.
   */
  lemma {:induction false} AdministratorSurvivesRuns(users: Users, calls: seq<Call>)
    requires forall i :: 0 <= i < |calls| ==> KeepsRoles(calls[i].req)
    ensures HasSuperadmin(users) ==> HasSuperadmin(Run(users, calls))
    ensures Governed(users) ==> Governed(Run(users, calls))
    decreases |calls|
  {
    if calls == [] {
    } else {
      StepKeepsAdministrator(users, calls[0].caller, calls[0].req, calls[0].taken);
      AdministratorSurvivesRuns(Step(users, calls[0].caller, calls[0].req, calls[0].taken), calls[1..]);
    }
  }

  predicate Privileged(role: string) { role == SUPERADMIN || role == ADMIN }

  /** Exactly which accepted updates lose the last administrator: those that move the only one to an ordinary role. */
  lemma {:induction false} RoleChangeLosesAdministratorIff(users: Users, caller: Caller, req: Request, taken: bool)
    requires Governed(users) && req.Update? && Answer(users, caller, req, taken) == Done
    ensures !Governed(Step(users, caller, req, taken)) <==>
            && req.newRole.Some? && req.newRole.value != "" && !Privileged(req.newRole.value)
            && Holders(users, SUPERADMIN) + Holders(users, ADMIN) == {req.id}
  {
    var users' := Step(users, caller, req, taken);
    var before := Holders(users, SUPERADMIN) + Holders(users, ADMIN);
    forall id | id != req.id
      ensures id in before <==> id in Holders(users', SUPERADMIN) + Holders(users', ADMIN)
    {}
    if req.newRole.None? || req.newRole.value == "" {
      StepKeepsAdministrator(users, caller, req, taken);
    } else if Privileged(req.newRole.value) && !Governed(users') {
      assert req.id in users' && !users'[req.id].active;
      assert before == {req.id};
      if req.active == Some(false) {
        assert Guard(users, users[req.id].role).None?;
        if users[req.id].role == SUPERADMIN {
          OtherHolderSurvives(users, SUPERADMIN, req.id);
        } else if ActiveCount(users, SUPERADMIN) == 0 {
          OtherHolderSurvives(users, ADMIN, req.id);
        }
      }
    } else if !Privileged(req.newRole.value) {
      assert req.id !in Holders(users', SUPERADMIN) + Holders(users', ADMIN);
    }
  }

  /** The same for the last superadmin: an accepted update loses it exactly by moving it to any other role. */
  lemma {:induction false} RoleChangeLosesSuperadminIff(users: Users, caller: Caller, req: Request, taken: bool)
    requires HasSuperadmin(users) && req.Update? && Answer(users, caller, req, taken) == Done
    ensures !HasSuperadmin(Step(users, caller, req, taken)) <==>
            && req.newRole.Some? && req.newRole.value != "" && req.newRole.value != SUPERADMIN
            && Holders(users, SUPERADMIN) == {req.id}
  {
    var users' := Step(users, caller, req, taken);
    forall id | id != req.id
      ensures id in Holders(users, SUPERADMIN) <==> id in Holders(users', SUPERADMIN)
    {}
    if req.id in Holders(users, SUPERADMIN) && req.active == Some(false) {
      OtherHolderSurvives(users, SUPERADMIN, req.id);
    }
    if HasSuperadmin(users') {
      var s :| s in Holders(users', SUPERADMIN);
    }
  }

  /** A concrete loss: the only superadmin is moved to an ordinary role, while still active. */
  lemma {:induction false} RoleChangeCanLoseLastSuperadmin()
    ensures var users := map["root" := User(SUPERADMIN, true)];
            var req := Update("root", Some("readonly"), None);
            && Answer(users, Caller("root", true), req, false) == Done
            && Governed(users) && !Governed(Step(users, Caller("root", true), req, false))
  {
    var users := map["root" := User(SUPERADMIN, true)];
    assert "root" in Holders(users, SUPERADMIN);
  }

  // ---------------------------------------------------------------- which requests are accepted

  /** Two different active users have the role. */
  ghost predicate TwoHold(users: Users, role: string) {
    exists a, b :: a != b && a in Holders(users, role) && b in Holders(users, role)
  }

  lemma {:induction false} CountMeaning(users: Users, role: string)
    ensures ActiveCount(users, role) >= 2 <==> TwoHold(users, role)
    ensures ActiveCount(users, role) == 0 <==> Holders(users, role) == {}
    ensures forall id :: id in Holders(users, role) <==> id in users && users[id].active && users[id].role == role
  {
    var holders := Holders(users, role);
    if |holders| >= 2 {
      var a :| a in holders;
      assert |holders - {a}| >= 1;
      var b :| b in holders - {a};
      assert a != b && a in Holders(users, role) && b in Holders(users, role);
    }
    if a, b :| a != b && a in holders && b in holders {
      assert {a, b} <= holders;
      Larger({a, b}, holders);
    }
  }

  lemma {:induction false} Larger(a: set<string>, b: set<string>)
    requires a <= b
    ensures |a| <= |b|
  {
    assert b == a + (b - a);
    assert |b| == |a| + |b - a|;
  }

  /** Somebody is left to take over from a user with this role. */
  ghost predicate Replaceable(users: Users, role: string) {
    && (role == "superadmin" ==> TwoHold(users, "superadmin"))
    && (role == "admin" ==> Holders(users, "superadmin") != {} || TwoHold(users, "admin"))
  }

  lemma {:induction false} GuardMeaning(users: Users, role: string)
    ensures Guard(users, role).None? <==> Replaceable(users, role)
    ensures Guard(users, role).Some? ==>
              Guard(users, role).value == if role == "superadmin" then LastSuperadmin else LastAdmin
  {
    CountMeaning(users, "superadmin");
    CountMeaning(users, "admin");
  }

  /** A user is created iff name and id are free, and is then active in the role asked for. */
  lemma {:induction false} CreationAcceptedIff(users: Users, caller: Caller, id: string, role: string, taken: bool)
    ensures var users' := Step(users, caller, Create(id, role), taken);
            users' == if !taken && id !in users then users[id := User(role, true)] else users
    ensures Answer(users, caller, Create(id, role), taken) == if !taken && id !in users then Done else Conflict
  {}

  /**
   A user is deleted iff it exists and is somebody else, superadmins only by callers who may manage them, and somebody
   is left to take over.
   */
  lemma {:induction false} DeletionAcceptedIff(users: Users, caller: Caller, id: string, taken: bool)
    ensures Answer(users, caller, Delete(id), taken) == Done <==>
            && id != caller.id && id in users && (users[id].role == "superadmin" ==> caller.managesSuperusers)
            && Replaceable(users, users[id].role)
    ensures Step(users, caller, Delete(id), taken)
            == if Answer(users, caller, Delete(id), taken) == Done then users - {id} else users
  {
    if id in users {
      GuardMeaning(users, users[id].role);
    }
  }

  /**
   A user is updated iff it exists, superadmins and promotions to superadmin only by callers who may manage them, no
   name is taken and, where the update switches it off, somebody is left to take over.
   */
  lemma {:induction false} UpdateAcceptedIff(users: Users, caller: Caller, id: string, role: Option<string>,
                                             active: Option<bool>, taken: bool)
    ensures Answer(users, caller, Update(id, role, active), taken) == Done <==>
            && id in users && !taken
            && (users[id].role == "superadmin" || role == Some("superadmin") ==> caller.managesSuperusers)
            && (active == Some(false) ==> Replaceable(users, users[id].role))
    ensures Answer(users, caller, Update(id, role, active), taken) == Done ==>
              Step(users, caller, Update(id, role, active), taken)
              == users[id := User(if role.Some? && role.value != "" then role.value else users[id].role,
                                  if active.Some? then active.value else users[id].active)]
    ensures Answer(users, caller, Update(id, role, active), taken) != Done ==>
              Step(users, caller, Update(id, role, active), taken) == users
  {
    if id in users {
      GuardMeaning(users, users[id].role);
    }
  }

  /** The user table with the three handlers. */
  class UserTable {
    var users: Users

    constructor (initial: Users)
      ensures users == initial
    {
      users := initial;
    }

    /** One `count` query of the guards. */
    method CountActive(role: string) returns (n: nat)
      ensures n == ActiveCount(users, role)
    {
      n := |set id | id in users && users[id].active && users[id].role == role|;
    }

    method CheckLast(role: string) returns (refusal: Option<Response>)
      ensures refusal == Guard(users, role)
    {
      if role == SUPERADMIN {
        var superadmins := CountActive(SUPERADMIN);
        if superadmins <= 1 {
          return Some(LastSuperadmin);
        }
      }
      if role == ADMIN {
        var superadmins := CountActive(SUPERADMIN);
        if superadmins == 0 {
          var admins := CountActive(ADMIN);
          if admins <= 1 {
            return Some(LastAdmin);
          }
        }
      }
      return None;
    }

    method CreateUser(caller: Caller, id: string, role: string, taken: bool) returns (res: Response)
      modifies this
      ensures res == Answer(old(users), caller, Create(id, role), taken)
      ensures users == Step(old(users), caller, Create(id, role), taken)
      ensures Governed(old(users)) ==> Governed(users)
    {
      StepKeepsAdministrator(users, caller, Create(id, role), taken);
      if taken || id in users {
        return Conflict;
      }
      users := users[id := User(role, true)];
      return Done;
    }

    method UpdateUser(caller: Caller, id: string, role: Option<string>, active: Option<bool>, taken: bool)
      returns (res: Response)
      modifies this
      ensures res == Answer(old(users), caller, Update(id, role, active), taken)
      ensures users == Step(old(users), caller, Update(id, role, active), taken)
      ensures Governed(old(users)) && role.None? ==> Governed(users)
    {
      if role.None? {
        StepKeepsAdministrator(users, caller, Update(id, role, active), taken);
      }
      if id !in users {
        return NotFound;
      }
      var existing := users[id];
      if existing.role == SUPERADMIN && !caller.managesSuperusers {
        return Forbidden;
      }
      if role == Some(SUPERADMIN) && !caller.managesSuperusers {
        return Forbidden;
      }
      if taken {
        return Conflict;
      }
      if active == Some(false) {
        var refusal := CheckLast(existing.role);
        if refusal.Some? {
          return refusal.value;
        }
      }
      if role.Some? && role.value != "" {
        users := users[id := users[id].(role := role.value)];
      }
      if active.Some? {
        users := users[id := users[id].(active := active.value)];
      }
      return Done;
    }

    method DeleteUser(caller: Caller, id: string) returns (res: Response)
      modifies this
      ensures res == Answer(old(users), caller, Delete(id), false)
      ensures users == Step(old(users), caller, Delete(id), false)
      ensures Governed(old(users)) ==> Governed(users)
    {
      StepKeepsAdministrator(users, caller, Delete(id), false);
      if id == caller.id {
        return OwnAccount;
      }
      if id !in users {
        return NotFound;
      }
      if users[id].role == SUPERADMIN && !caller.managesSuperusers {
        return Forbidden;
      }
      var refusal := CheckLast(users[id].role);
      if refusal.Some? {
        return refusal.value;
      }
      users := users - {id};
      return Done;
    }
  }
}
