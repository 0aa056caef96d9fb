/**
 * controllers/admin/admins.js: the guarded updates on the admins, roles and
 * rolePermissions tables. Email and phone validation (validator), password hashing
 * (bcrypt) and fresh UUIDs are parameters.
 */
module Admins {
  import opened Wrappers
  import opened KeyStore
  import opened Utils

  type AdminId = string
  type RoleId = string
  type PermissionId = string

  /** A row of admins; `password` holds the bcrypt digest. */
  datatype Admin = Admin(name: string, email: string, phoneNo: string, password: string,
                         isRoot: bool, roleId: Option<RoleId>)

  /** The name of the role every root admin gets. */
  const RootRoleName := "rootAdmin"

  const MinPasswordLength := 6
  const MaxPasswordLength := 20

  /** The declared widths of the admin and role columns: admins.name and admins.email are
      STRING(100), admins.phoneNo STRING(20) and roles.name STRING(50). Postgres rejects a
      longer value when the row is written. */
  const AdminNameWidth := 100
  const EmailWidth := 100
  const PhoneNoWidth := 20
  const RoleNameWidth := 50

  datatype AdminError =
    | RootAdminExists
    | InvalidEmail
    | InvalidPhoneNo
    | PasswordTooShort
    | PasswordTooLong
    | RootRoleMissing
    | DuplicateEmail
    | AdminIdMissing
    | AdminMissing
    | RootAdminImmutable
    | NameRequired
    | PhoneNoRequired
    | RoleMissing
    | RootRoleImmutable
    | RoleInUse
    | RoleNotAdded
    | DuplicateRoleName
    | PermissionMissing
    | ValueTooLong

  /** The admin tables. rolePermissions is the join table of the Role-Permission association. */
  class AdminStore {
    var admins: map<AdminId, Admin>
    var roles: map<RoleId, string>
    var rolePermissions: set<(RoleId, PermissionId)>
    var permissions: set<PermissionId>

    constructor (permissions: set<PermissionId>)
      ensures admins == map[] && roles == map[] && rolePermissions == {}
      ensures this.permissions == permissions
    {
      admins, roles, rolePermissions := map[], map[], {};
      this.permissions := permissions;
    }
  }

  /** The ids of the root admins. */
  function Roots(admins: map<AdminId, Admin>): set<AdminId>
  {
    set a | a in admins && admins[a].isRoot
  }

  /** There is at most one root admin. */
  predicate AtMostOneRoot(admins: map<AdminId, Admin>)
  {
    forall a, b | a in Roots(admins) && b in Roots(admins) :: a == b
  }

  /** Every root admin of `before` is still there, unchanged. */
  predicate RootsKept(before: map<AdminId, Admin>, after: map<AdminId, Admin>)
  {
    forall a | a in before && before[a].isRoot :: a in after && after[a] == before[a]
  }

  /** The permissions the join table grants a role. */
  function PermissionsOf(rolePermissions: set<(RoleId, PermissionId)>, r: RoleId): set<PermissionId>
  {
    set rp | rp in rolePermissions && rp.0 == r :: rp.1
  }

  /** The join table with every row of role r removed (`removePermissions(getPermissions())`). */
  function WithoutRole(rolePermissions: set<(RoleId, PermissionId)>, r: RoleId): (rest: set<(RoleId, PermissionId)>)
    ensures PermissionsOf(rest, r) == {}
    ensures forall q | q != r :: PermissionsOf(rest, q) == PermissionsOf(rolePermissions, q)
  {
    set rp | rp in rolePermissions && rp.0 != r
  }

  /** The join rows `addPermissions(permissions)` inserts for role r. */
  function Grants(r: RoleId, permissions: seq<PermissionId>): (grants: set<(RoleId, PermissionId)>)
    ensures PermissionsOf(grants, r) == SetOf(permissions)
    ensures forall q | q != r :: PermissionsOf(grants, q) == {}
  {
    var grants := set p | p in permissions :: (r, p);
    assert forall p | p in SetOf(permissions) :: (r, p) in grants;
    grants
  }

  /** The roles some admin is assigned (`role.admins`). */
  predicate HasAdmins(admins: map<AdminId, Admin>, r: RoleId)
  {
    exists a | a in admins :: admins[a].roleId == Some(r)
  }

  /** Two roles never share a name (the unique index on roles.name). */
  predicate UniqueRoleNames(roles: map<RoleId, string>)
  {
    forall q, r | q in roles && r in roles && roles[q] == roles[r] :: q == r
  }

  /** When the role names are unique, replacing one role's rows in the join table
      leaves every other role's permissions as they were. */
  lemma ReplaceGrants(rolePermissions: set<(RoleId, PermissionId)>, r: RoleId, permissions: seq<PermissionId>)
    ensures PermissionsOf(WithoutRole(rolePermissions, r) + Grants(r, permissions), r) == SetOf(permissions)
    ensures forall q | q != r :: PermissionsOf(WithoutRole(rolePermissions, r) + Grants(r, permissions), q)
                                 == PermissionsOf(rolePermissions, q)
  {
    var rest, grants := WithoutRole(rolePermissions, r), Grants(r, permissions);
    assert forall q :: PermissionsOf(rest + grants, q) == PermissionsOf(rest, q) + PermissionsOf(grants, q);
  }

  /** The rootAdmin role that adminAddRootAdmin looks up exists. */
  predicate HasRootRole(roles: map<RoleId, string>)
  {
    exists role | role in roles :: roles[role] == RootRoleName
  }

  /** No admin has this email yet (the unique index on email). */
  predicate EmailFree(admins: map<AdminId, Admin>, email: string)
  {
    forall a | a in admins :: admins[a].email != email
  }

  /** The name and phone number fit their columns. */
  predicate DetailsFit(name: string, phoneNo: string)
  {
    |name| <= AdminNameWidth && |phoneNo| <= PhoneNoWidth
  }

  /** A new admin row fits its columns. */
  predicate AdminFits(name: string, email: string, phoneNo: string)
  {
    DetailsFit(name, phoneNo) && |email| <= EmailWidth
  }

  /** adminAddRootAdmin: refused while any root admin exists; then the email, the phone
      number and the password length (6 to 20) are checked before anything is written; the
      new admin is root and gets the rootAdmin role (a missing role throws). The insert is
      rejected when a value is wider than its column and then when the unique index on email
      already holds the email. */
  method AdminAddRootAdmin(store: AdminStore, name: string, email: string, phoneNo: string, password: string,
                           isEmail: string -> bool, isMobilePhone: string -> bool, hash: string -> string,
                           newId: AdminId) returns (r: Result<AdminId, AdminError>)
    requires newId !in store.admins
    modifies store`admins
    ensures Roots(old(store.admins)) != {} ==> r == Err(RootAdminExists)
    ensures Roots(old(store.admins)) == {} && !isEmail(email) ==> r == Err(InvalidEmail)
    ensures Roots(old(store.admins)) == {} && isEmail(email) && !isMobilePhone(phoneNo) ==> r == Err(InvalidPhoneNo)
    ensures Roots(old(store.admins)) == {} && isEmail(email) && isMobilePhone(phoneNo) && |password| < MinPasswordLength ==>
              r == Err(PasswordTooShort)
    ensures Roots(old(store.admins)) == {} && isEmail(email) && isMobilePhone(phoneNo) && |password| > MaxPasswordLength ==>
              r == Err(PasswordTooLong)
    ensures Roots(old(store.admins)) == {} && isEmail(email) && isMobilePhone(phoneNo)
            && MinPasswordLength <= |password| <= MaxPasswordLength ==>
              && (!HasRootRole(store.roles) ==> r == Err(RootRoleMissing))
              && (HasRootRole(store.roles) && !AdminFits(name, email, phoneNo) ==> r == Err(ValueTooLong))
              && (HasRootRole(store.roles) && AdminFits(name, email, phoneNo) && !EmailFree(old(store.admins), email) ==>
                    r == Err(DuplicateEmail))
              && (r.Ok? <==> HasRootRole(store.roles) && AdminFits(name, email, phoneNo) && EmailFree(old(store.admins), email))
    ensures r.Err? ==> store.admins == old(store.admins)
    ensures r.Ok? ==>
              && Roots(old(store.admins)) == {}
              && MinPasswordLength <= |password| <= MaxPasswordLength
              && AdminFits(name, email, phoneNo)
              && r.value == newId
              && (forall a | a in old(store.admins) :: old(store.admins)[a].email != email)
              && (exists role | role in store.roles && store.roles[role] == RootRoleName ::
                    store.admins == old(store.admins)[newId := Admin(name, email, phoneNo, hash(password), true, Some(role))])
              && Roots(store.admins) == {newId}
    ensures AtMostOneRoot(old(store.admins)) ==> AtMostOneRoot(store.admins)
  {
    if Roots(store.admins) != {} {
      return Err(RootAdminExists);
    }
    if !isEmail(email) {
      return Err(InvalidEmail);
    }
    if !isMobilePhone(phoneNo) {
      return Err(InvalidPhoneNo);
    }
    if |password| < MinPasswordLength {
      return Err(PasswordTooShort);
    }
    if |password| > MaxPasswordLength {
      return Err(PasswordTooLong);
    }
    var digest := hash(password);
    if !HasRootRole(store.roles) {
      return Err(RootRoleMissing);
    }
    var role :| role in store.roles && store.roles[role] == RootRoleName;
    if !AdminFits(name, email, phoneNo) {
      return Err(ValueTooLong);
    }
    if !EmailFree(store.admins, email) {
      return Err(DuplicateEmail);
    }
    ghost var before := store.admins;
    store.admins := store.admins[newId := Admin(name, email, phoneNo, digest, true, Some(role))];
    assert Roots(store.admins) == Roots(before) + {newId};
    r := Ok(newId);
  }

  /** editAdmin: the admin must exist and not be root, and name and phoneNo must be given
      (the empty string stands for a missing field) with a valid phone number; only name,
      phoneNo and roleId change. The save is rejected when the name or phone number is wider
      than its column, and then when a roleId naming no role breaks the foreign key.
      The result carries the permissions of the new role as ids; the reply lists their names,
      which are unique, so the two determine each other. */
  method EditAdmin(store: AdminStore, adminId: AdminId, name: string, phoneNo: string, roleId: Option<RoleId>,
                   isMobilePhone: string -> bool) returns (r: Result<(Admin, set<PermissionId>), AdminError>)
    modifies store`admins
    ensures adminId !in old(store.admins) ==> r == Err(AdminMissing)
    ensures adminId in old(store.admins) && old(store.admins)[adminId].isRoot ==> r == Err(RootAdminImmutable)
    ensures adminId in old(store.admins) && !old(store.admins)[adminId].isRoot ==>
              && (name == "" ==> r == Err(NameRequired))
              && (name != "" && phoneNo == "" ==> r == Err(PhoneNoRequired))
              && (name != "" && phoneNo != "" && !isMobilePhone(phoneNo) ==> r == Err(InvalidPhoneNo))
              && (name != "" && phoneNo != "" && isMobilePhone(phoneNo) && !DetailsFit(name, phoneNo) ==>
                    r == Err(ValueTooLong))
              && (name != "" && phoneNo != "" && isMobilePhone(phoneNo) && DetailsFit(name, phoneNo) ==>
                    (r.Ok? <==> roleId.None? || roleId.value in store.roles))
    ensures r.Err? ==> store.admins == old(store.admins)
    ensures r.Ok? ==>
              && adminId in old(store.admins) && !old(store.admins)[adminId].isRoot
              && DetailsFit(name, phoneNo)
              && r.value.0 == old(store.admins)[adminId].(name := name, phoneNo := phoneNo, roleId := roleId)
              && store.admins == old(store.admins)[adminId := r.value.0]
              && r.value.1 == (if roleId.Some? then PermissionsOf(store.rolePermissions, roleId.value) else {})
    ensures RootsKept(old(store.admins), store.admins) && Roots(store.admins) == Roots(old(store.admins))
  {
    if adminId !in store.admins {
      return Err(AdminMissing);
    }
    var admin := store.admins[adminId];
    if admin.isRoot {
      return Err(RootAdminImmutable);
    }
    if name == "" {
      return Err(NameRequired);
    }
    if phoneNo == "" {
      return Err(PhoneNoRequired);
    }
    if !isMobilePhone(phoneNo) {
      return Err(InvalidPhoneNo);
    }
    admin := admin.(name := name, phoneNo := phoneNo, roleId := roleId);
    var granted := if roleId.Some? then PermissionsOf(store.rolePermissions, roleId.value) else {};
    if !DetailsFit(name, phoneNo) {
      return Err(ValueTooLong);
    }
    if roleId.Some? && roleId.value !in store.roles {
      return Err(RoleMissing);
    }
    ghost var before := store.admins;
    store.admins := store.admins[adminId := admin];
    assert Roots(store.admins) == Roots(before);
    r := Ok((admin, granted));
  }

  /** The query's adminId counts as given when it is present and not the empty string. */
  predicate IdGiven(adminId: Option<AdminId>)
  {
    adminId.Some? && adminId.value != ""
  }

  /** resetPasswordForAdmin: the adminId must be given (absent and empty both count as missing)
      and name an admin that is not root;
      a new 8-character password is drawn and its digest stored. The reply carries the email
      and the plain password. */
  method ResetPasswordForAdmin(store: AdminStore, adminId: Option<AdminId>, draws: seq<int>, hash: string -> string)
    returns (r: Result<(string, string), AdminError>)
    requires |draws| >= 8 && forall i | 0 <= i < |draws| :: 0 <= draws[i] < |Alphabet|
    modifies store`admins
    ensures !IdGiven(adminId) ==> r == Err(AdminIdMissing)
    ensures IdGiven(adminId) && adminId.value !in old(store.admins) ==> r == Err(AdminMissing)
    ensures IdGiven(adminId) && adminId.value in old(store.admins) ==> (r.Err? <==> old(store.admins)[adminId.value].isRoot)
    ensures r.Err? ==> store.admins == old(store.admins)
    ensures r.Ok? ==>
              var password := r.value.1;
              && IdGiven(adminId) && adminId.value in old(store.admins)
              && r.value.0 == old(store.admins)[adminId.value].email
              && |password| == 8 && (forall i | 0 <= i < 8 :: password[i] == Alphabet[draws[i]])
              && store.admins == old(store.admins)[adminId.value := old(store.admins)[adminId.value].(password := hash(password))]
    ensures RootsKept(old(store.admins), store.admins) && Roots(store.admins) == Roots(old(store.admins))
  {
    if !IdGiven(adminId) {
      return Err(AdminIdMissing);
    }
    if adminId.value !in store.admins {
      return Err(AdminMissing);
    }
    var admin := store.admins[adminId.value];
    if admin.isRoot {
      return Err(RootAdminImmutable);
    }
    var password := GetRandomString(8, draws);
    ghost var before := store.admins;
    store.admins := store.admins[adminId.value := admin.(password := hash(password))];
    assert Roots(store.admins) == Roots(before);
    r := Ok((admin.email, password));
  }

  /** deleteAdmin: the adminId must be given (absent and empty both count as missing) and name
      an admin that is not root. */
  method DeleteAdmin(store: AdminStore, adminId: Option<AdminId>) returns (r: Result<AdminId, AdminError>)
    modifies store`admins
    ensures !IdGiven(adminId) ==> r == Err(AdminIdMissing)
    ensures IdGiven(adminId) && adminId.value !in old(store.admins) ==> r == Err(AdminMissing)
    ensures IdGiven(adminId) && adminId.value in old(store.admins) ==> (r.Err? <==> old(store.admins)[adminId.value].isRoot)
    ensures r.Err? ==> store.admins == old(store.admins)
    ensures r.Ok? ==> adminId == Some(r.value) && store.admins == old(store.admins) - {r.value}
    ensures RootsKept(old(store.admins), store.admins) && Roots(store.admins) == Roots(old(store.admins))
  {
    if !IdGiven(adminId) {
      return Err(AdminIdMissing);
    }
    if adminId.value !in store.admins {
      return Err(AdminMissing);
    }
    if store.admins[adminId.value].isRoot {
      return Err(RootAdminImmutable);
    }
    ghost var before := store.admins;
    store.admins := store.admins - {adminId.value};
    assert Roots(store.admins) == Roots(before);
    r := Ok(adminId.value);
  }

  /** addPermissions bulk-inserts one join row per listed id, so it fails on an id that names
      no permission (the foreign key) and on an id listed twice (the (roleId, permissionId)
      primary key of the join table). */
  predicate Attachable(list: seq<PermissionId>, permissions: set<PermissionId>)
  {
    Distinct(list) && SetOf(list) <= permissions
  }

  /** addNewRole: the role is created (a name wider than its column, and then the unique index
      on name, can reject it); a non-empty
      permission list is attached, and when that fails (an unknown or repeated permission)
      the new role is destroyed again. */
  method AddNewRole(store: AdminStore, name: string, permissions: Option<seq<PermissionId>>, newId: RoleId)
    returns (r: Result<RoleId, AdminError>)
    requires newId !in store.roles && forall rp | rp in store.rolePermissions :: rp.0 != newId
    modifies store`roles, store`rolePermissions
    ensures |name| > RoleNameWidth ==> r == Err(ValueTooLong)
    ensures |name| <= RoleNameWidth && (exists q | q in old(store.roles) :: old(store.roles)[q] == name) ==> r == Err(DuplicateRoleName)
    ensures r.Err? ==> store.roles == old(store.roles) && store.rolePermissions == old(store.rolePermissions)
    ensures |name| <= RoleNameWidth && (forall q | q in old(store.roles) :: old(store.roles)[q] != name) ==>
              (r.Ok? <==> permissions.None? || Attachable(permissions.value, store.permissions))
    ensures r.Ok? ==>
              var granted := if permissions.Some? then SetOf(permissions.value) else {};
              && r.value == newId && |name| <= RoleNameWidth
              && store.roles == old(store.roles)[newId := name]
              && PermissionsOf(store.rolePermissions, newId) == granted
              && (forall q | q != newId :: PermissionsOf(store.rolePermissions, q) == PermissionsOf(old(store.rolePermissions), q))
    ensures UniqueRoleNames(old(store.roles)) ==> UniqueRoleNames(store.roles)
  {
    if |name| > RoleNameWidth {
      return Err(ValueTooLong);
    }
    if exists q | q in store.roles :: store.roles[q] == name {
      return Err(DuplicateRoleName);
    }
    store.roles := store.roles[newId := name];
    if permissions.Some? && permissions.value != [] {
      if !Attachable(permissions.value, store.permissions) {
        // the join-table insert violates its foreign or primary key: destroy the role
        store.roles := store.roles - {newId};
        assert store.roles == old(store.roles);
        return Err(RoleNotAdded);
      }
      ReplaceGrants(store.rolePermissions, newId, permissions.value);
      assert WithoutRole(store.rolePermissions, newId) == store.rolePermissions;
      store.rolePermissions := store.rolePermissions + Grants(newId, permissions.value);
    }
    r := Ok(newId);
  }

  /** The outcome of editRole: the HTTP status (200 in the catch as well) and the result. */
  datatype Reply = Reply(status: int, result: Result<RoleId, AdminError>)

  /** editRole: a missing role throws when its name is read, and the rootAdmin role is
      refused; otherwise the role's permissions are all removed at once, the given list (if
      non-empty) is attached, and the new name is saved. A failed attach (an unknown or
      repeated permission) throws after the removal, leaving the role without permissions; a
      failed save (a name wider than its column, then a duplicate name) throws after the
      permissions are replaced, keeping the old name. Every outcome is answered with status 200. */
  method EditRole(store: AdminStore, roleId: RoleId, name: string, permissions: Option<seq<PermissionId>>)
    returns (reply: Reply)
    modifies store`roles, store`rolePermissions
    ensures reply.status == 200
    ensures roleId !in old(store.roles) ==>
              reply.result == Err(RoleMissing) && store.roles == old(store.roles) && store.rolePermissions == old(store.rolePermissions)
    ensures roleId in old(store.roles) && old(store.roles)[roleId] == RootRoleName ==>
              reply.result == Err(RootRoleImmutable) && store.roles == old(store.roles) && store.rolePermissions == old(store.rolePermissions)
    ensures roleId in old(store.roles) && old(store.roles)[roleId] != RootRoleName ==>
              var given := if permissions.Some? then SetOf(permissions.value) else {};
              var attached := permissions.None? || Attachable(permissions.value, store.permissions);
              var clash := exists q | q in old(store.roles) && q != roleId :: old(store.roles)[q] == name;
              && (forall q | q != roleId :: PermissionsOf(store.rolePermissions, q) == PermissionsOf(old(store.rolePermissions), q))
              && (!attached ==> reply.result == Err(PermissionMissing) && store.roles == old(store.roles)
                                && PermissionsOf(store.rolePermissions, roleId) == {})
              && (attached && |name| > RoleNameWidth ==>
                    reply.result == Err(ValueTooLong) && store.roles == old(store.roles)
                    && PermissionsOf(store.rolePermissions, roleId) == given)
              && (attached && |name| <= RoleNameWidth && clash ==>
                    reply.result == Err(DuplicateRoleName) && store.roles == old(store.roles)
                    && PermissionsOf(store.rolePermissions, roleId) == given)
              && (attached && |name| <= RoleNameWidth && !clash ==>
                    reply.result == Ok(roleId) && store.roles == old(store.roles)[roleId := name]
                    && PermissionsOf(store.rolePermissions, roleId) == given)
    ensures forall q | q in old(store.roles) && old(store.roles)[q] == RootRoleName ::
              q in store.roles && store.roles[q] == RootRoleName && PermissionsOf(store.rolePermissions, q) == PermissionsOf(old(store.rolePermissions), q)
    ensures UniqueRoleNames(old(store.roles)) ==> UniqueRoleNames(store.roles)
  {
    if roleId !in store.roles {
      return Reply(200, Err(RoleMissing));
    }
    if store.roles[roleId] == RootRoleName {
      return Reply(200, Err(RootRoleImmutable));
    }
    var none: seq<PermissionId> := [];
    ReplaceGrants(store.rolePermissions, roleId, none);
    store.rolePermissions := WithoutRole(store.rolePermissions, roleId);
    if permissions.Some? && permissions.value != [] {
      if !Attachable(permissions.value, store.permissions) {
        return Reply(200, Err(PermissionMissing));
      }
      ReplaceGrants(store.rolePermissions, roleId, permissions.value);
      assert WithoutRole(store.rolePermissions, roleId) == store.rolePermissions;
      store.rolePermissions := store.rolePermissions + Grants(roleId, permissions.value);
    }
    if |name| > RoleNameWidth {
      return Reply(200, Err(ValueTooLong));
    }
    if exists q | q in store.roles && q != roleId :: store.roles[q] == name {
      return Reply(200, Err(DuplicateRoleName));
    }
    store.roles := store.roles[roleId := name];
    reply := Reply(200, Ok(roleId));
  }

  /** deleteRole: refused for a missing role, the rootAdmin role and a role some admin has;
      otherwise the role's join rows and the role itself are removed. */
  method DeleteRole(store: AdminStore, roleId: RoleId) returns (r: Result<RoleId, AdminError>)
    modifies store`roles, store`rolePermissions
    ensures roleId !in old(store.roles) ==> r == Err(RoleMissing)
    ensures roleId in old(store.roles) && old(store.roles)[roleId] == RootRoleName ==> r == Err(RootRoleImmutable)
    ensures roleId in old(store.roles) && old(store.roles)[roleId] != RootRoleName && HasAdmins(store.admins, roleId) ==>
              r == Err(RoleInUse)
    ensures roleId in old(store.roles) && old(store.roles)[roleId] != RootRoleName && !HasAdmins(store.admins, roleId) ==>
              r == Ok(roleId)
    ensures r.Err? ==> store.roles == old(store.roles) && store.rolePermissions == old(store.rolePermissions)
    ensures r.Ok? ==>
              && r.value == roleId && roleId in old(store.roles)
              && old(store.roles)[roleId] != RootRoleName && !HasAdmins(store.admins, roleId)
              && store.roles == old(store.roles) - {roleId}
              && store.rolePermissions == WithoutRole(old(store.rolePermissions), roleId)
    ensures forall a | a in store.admins && store.admins[a].roleId.Some? && store.admins[a].roleId.value in old(store.roles) ::
              store.admins[a].roleId.value in store.roles
  {
    if roleId !in store.roles {
      return Err(RoleMissing);
    }
    if store.roles[roleId] == RootRoleName {
      return Err(RootRoleImmutable);
    }
    if exists a | a in store.admins :: store.admins[a].roleId == Some(roleId) {
      return Err(RoleInUse);
    }
    store.rolePermissions := WithoutRole(store.rolePermissions, roleId);
    store.roles := store.roles - {roleId};
    r := Ok(roleId);
  }
}
