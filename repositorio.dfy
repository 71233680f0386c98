/**
 * `AuthRepositorio` over in-memory tables: `users` keyed by the serial id,
 * the `user_roles` join table, and the read-only `roles` table. Each method
 * has the effect of the SQL statement it issues.
 */
module Repositorio {
  import opened Wrappers
  import opened Entidades

  /** A row of `users` (the id is the key of the map). */
  datatype UserRow = UserRow(
    email: string,
    passwordHash: string,
    fullName: string,
    resetToken: Option<string>,
    tokenExpiracion: Option<int>)

  /** A row of `roles` (the id is the key of the map); `permisos` is a nullable column. */
  datatype RoleRow = RoleRow(name: string, permisos: Option<string>)

  /** The `Rol` built from a joined role row, a NULL `permisos` read as `''`. */
  function RolFromRow(id: int, row: RoleRow): (r: Rol)
    ensures r.id == id && r.nombre == row.name
    ensures r.permisos == "" <==> row.permisos.None? || row.permisos.value == ""
    ensures row.permisos.Some? ==> r.permisos == row.permisos.value
  {
    Rol(id, row.name, row.permisos.GetOr(""))
  }

  /** The `resetToken` a row yields: a NULL or empty column reads as null. */
  function ResetTokenFromRow(column: Option<string>): (t: Option<string>)
    ensures t.Some? <==> column.Some? && column.value != ""
    ensures t.Some? ==> t == column
  {
    if column == Some("") then None else column
  }

  class AuthRepositorio {
    var users: map<int, UserRow>
    var userRoles: set<(int, int)>
    const roles: map<int, RoleRow>
    /** The value the `users` id sequence hands out next. */
    var nextId: int

    /** Stored ids are positive and all below the sequence's next value. */
    ghost predicate Valid()
      reads this
    {
      && 1 <= nextId
      && forall id :: id in users ==> 1 <= id < nextId
    }

    /** Every stored row has its reset token and its expiry both set or both null. */
    ghost predicate ResetFieldsPaired()
      reads this
    {
      forall id :: id in users ==> (users[id].resetToken.Some? <==> users[id].tokenExpiracion.Some?)
    }

    /** The tables as they are in the database. */
    constructor(users: map<int, UserRow>, userRoles: set<(int, int)>, roles: map<int, RoleRow>, nextId: int)
      requires 1 <= nextId && forall id :: id in users ==> 1 <= id < nextId
      ensures Valid()
      ensures this.users == users && this.userRoles == userRoles
      ensures this.roles == roles && this.nextId == nextId
    {
      this.users := users;
      this.userRoles := userRoles;
      this.roles := roles;
      this.nextId := nextId;
    }

    /** Some row of `users` has exactly this email (`WHERE email = $1`). */
    predicate HasEmail(email: string)
      reads this
    {
      exists id :: id in users && users[id].email == email
    }

    /** The role ids `user_roles` pairs with a user. */
    function RoleIdsOf(userId: int): set<int>
      reads this
    {
      set p | p in userRoles && p.0 == userId :: p.1
    }

    /**
     * `rol` is what one row of `users LEFT JOIN user_roles LEFT JOIN roles`
     * can give for this user: the role of a pair whose role exists and whose
     * id is non-zero (`if (fila.rol_id)`), or null when the user has no pair
     * or the chosen pair yields no usable role.
     */
    ghost predicate JoinedRole(userId: int, rol: Option<Rol>)
      reads this
    {
      match rol
      case None =>
        RoleIdsOf(userId) == {} || exists rid :: rid in RoleIdsOf(userId) && (rid !in roles || rid == 0)
      case Some(r) =>
        r.id in RoleIdsOf(userId) && r.id in roles && r.id != 0 && r == RolFromRow(r.id, roles[r.id])
    }

    /** `id` and `rol` are what `buscarPorEmail(email)` may report: a row with that email and a joined role. */
    ghost predicate Lookup(email: string, id: int, rol: Option<Rol>)
      reads this
    {
      id in users && users[id].email == email && JoinedRole(id, rol)
    }

    /** `u` holds the columns of `row`, mapped as `buscarPorEmail` maps them. */
    ghost predicate Loaded(u: Usuario, row: UserRow)
      reads u
    {
      && u.email == row.email
      && u.passwordHash == row.passwordHash
      && u.nombre == row.fullName
      && u.resetToken == ResetTokenFromRow(row.resetToken)
      && u.tokenExpiracion == row.tokenExpiracion
    }

    /**
     * Upsert decided by the id: an existing row gets all five mutable columns
     * from `u`; otherwise a row with a fresh id gets `u`'s email, hash and
     * name, and NULL reset columns.
     */
    method Guardar(u: Usuario)
      requires Valid()
      modifies this`users, this`nextId
      ensures Valid()
      ensures u.id in old(users) ==>
        && users == old(users)[u.id := UserRow(u.email, u.passwordHash, u.nombre, u.resetToken, u.tokenExpiracion)]
        && nextId == old(nextId)
      ensures u.id !in old(users) ==>
        && old(nextId) !in old(users)
        && users == old(users)[old(nextId) := UserRow(u.email, u.passwordHash, u.nombre, None, None)]
        && nextId > old(nextId)
      ensures old(ResetFieldsPaired()) && u.ResetFieldsPaired() ==> ResetFieldsPaired()
    {
      if u.id in users {
        users := users[u.id := UserRow(u.email, u.passwordHash, u.nombre, u.resetToken, u.tokenExpiracion)];
      } else {
        users := users[nextId := UserRow(u.email, u.passwordHash, u.nombre, None, None)];
        nextId := nextId + 1;
      }
    }

    /**
     * The user with this email, with its reset fields and its joined role,
     * or null when no row has exactly this email. Which row answers, when
     * several do, is up to the database.
     */
    method BuscarPorEmail(email: string) returns (u: Usuario?)
      ensures u == null <==> !HasEmail(email)
      ensures u != null ==> fresh(u) && Lookup(email, u.id, u.rol) && Loaded(u, users[u.id])
    {
      if !HasEmail(email) {
        return null;
      }
      var id :| id in users && users[id].email == email;
      var fila := users[id];
      u := new Usuario(id, fila.email, fila.passwordHash, fila.fullName);
      u.resetToken := ResetTokenFromRow(fila.resetToken);
      u.tokenExpiracion := fila.tokenExpiracion;
      var rolIds := RoleIdsOf(id);
      if rolId :| rolId in rolIds {
        if rolId in roles && rolId != 0 {
          u.rol := Some(RolFromRow(rolId, roles[rolId]));
        }
      } else {
        assert forall r :: r !in rolIds;
        assert rolIds == {};
      }
    }

    /** `INSERT ... ON CONFLICT DO NOTHING`: the pair is present afterwards, and only it is added. */
    method AsignarRol(userId: int, rolId: int)
      modifies this`userRoles
      ensures userRoles == old(userRoles) + {(userId, rolId)}
      ensures (userId, rolId) in old(userRoles) ==> userRoles == old(userRoles)
    {
      userRoles := userRoles + {(userId, rolId)};
    }

    /** The id of a row with exactly this email, or null when there is none. */
    method ObtenerIdPorEmail(email: string) returns (id: Option<int>)
      ensures id.None? <==> !HasEmail(email)
      ensures id.Some? ==> id.value in users && users[id.value].email == email
    {
      if !HasEmail(email) {
        return None;
      }
      var found :| found in users && users[found].email == email;
      id := Some(found);
    }
  }
}
