/**
  The access-control gate. Every exported server operation starts with a role
  check; together those checks form one static table from operation to the
  roles that may call it.
 */
module Access {
  import opened Base
  import opened Failures

  datatype Role = Admin | Manager | Worker

  /** The session user. The role is optional: a user record without one fails every role check. */
  datatype User = User(id: string, role: Option<Role>)

  /** The session user of a request, absent when nobody is logged in. */
  type Caller = Option<User>

  /** The exported server operations that carry a guard. */
  datatype Operation =
    | CreateProduct | UpdateProduct | DeleteProduct | GetProducts
    | CreateSale | GetSalesReport | GetSaleDetails | GetTodaysSales
    | GetSettings | UpdateSetting
    | GetUsers | CreateUser | UpdateUser

  /** Who an operation admits: any logged-in user, or only the listed roles. */
  datatype Clearance = AnyUser | Staff(roles: set<Role>)

  /** The role table. */
  function Required(op: Operation): (r: Clearance)
    ensures r.AnyUser? <==> op == GetProducts || op == GetSettings
    ensures r.Staff? ==> Admin in r.roles
    ensures r.Staff? && Worker in r.roles ==> r.roles == {Admin, Manager, Worker}
  {
    match op
    case GetProducts | GetSettings => AnyUser
    case CreateSale | GetSaleDetails | GetTodaysSales => Staff({Admin, Manager, Worker})
    case GetSalesReport => Staff({Admin, Manager})
    case CreateProduct | UpdateProduct | DeleteProduct | UpdateSetting | GetUsers | CreateUser | UpdateUser =>
      Staff({Admin})
  }

  /** Whether the table lets a user holding `role` invoke `op`. */
  predicate Permits(role: Option<Role>, op: Operation) {
    match Required(op)
    case AnyUser => true
    case Staff(roles) => role.Some? && role.value in roles
  }

  /**
    The roles are nested: whatever a worker may do a manager may do, whatever
    a manager may do an admin may do, and a user without a role may only use
    the operations open to every logged-in user.
   */
  lemma RolesNested(op: Operation)
    ensures Permits(Some(Worker), op) ==> Permits(Some(Manager), op)
    ensures Permits(Some(Manager), op) ==> Permits(Some(Admin), op)
    ensures Permits(None, op) <==> Required(op).AnyUser?
  {
  }

  /** A user is present and its id is not empty. */
  predicate LoggedIn(c: Caller) {
    c.Some? && c.value.id != ""
  }

  predicate Allowed(c: Caller, op: Operation) {
    LoggedIn(c) && Permits(c.value.role, op)
  }

  /** The failure a refused call reports. */
  function Denial(op: Operation): Failure {
    if op == GetProducts || op == GetSettings then NotAuthenticated else NotAuthorized
  }

  /** The user holds a role, and that role is one of `roles`. */
  predicate RoleAmong(u: User, roles: seq<Role>) {
    u.role.Some? && u.role.value in roles
  }

  /**
    The guard each operation opens with, written the way the source writes it
    operation by operation; `None` lets the call proceed.
   */
  function Guard(c: Caller, op: Operation): (r: Option<Failure>)
    ensures r.None? <==> Allowed(c, op)
    ensures r.Some? ==> r.value == Denial(op)
    ensures op != GetProducts && op != GetSettings && r.Some? ==> r.value == NotAuthorized
  {
    match op
    case GetProducts | GetSettings =>
      if !LoggedIn(c) then Some(NotAuthenticated) else None
    case CreateSale | GetSaleDetails | GetTodaysSales =>
      if !LoggedIn(c) || !RoleAmong(c.value, [Admin, Manager, Worker]) then Some(NotAuthorized) else None
    case GetSalesReport =>
      if !LoggedIn(c) || !RoleAmong(c.value, [Admin, Manager]) then Some(NotAuthorized) else None
    case CreateProduct | UpdateProduct | DeleteProduct | UpdateSetting | GetUsers | CreateUser | UpdateUser =>
      if !LoggedIn(c) || c.value.role != Some(Admin) then Some(NotAuthorized) else None
  }
}
