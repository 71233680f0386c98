/**
 * The entities of the account-access module: `Rol`, the authentication DTO,
 * and `Usuario` with its reset-token state and its role-based permission check.
 */
module Entidades {
  import opened Wrappers
  import opened JsString
  import opened Crypto

  /** A role: its name is itself a permission, `permisos` lists the others, comma-separated. */
  datatype Rol = Rol(id: int, nombre: string, permisos: string)

  /** What the view layer sends the controller. */
  datatype AutenticacionDTO = AutenticacionDTO(
    email: string,
    password: string,
    nombre: Option<string>,
    tokenTemporal: Option<string>)

  /** The entries of a permission list, each trimmed and lower-cased. */
  function NormalizeEntries(entries: seq<string>): (r: seq<string>)
    ensures |r| == |entries|
  {
    seq(|entries|, i requires 0 <= i < |entries| => Lower(Trim(entries[i])))
  }

  /**
   * `usuario.validarRol(permiso)`: it reads only the user's `rol`, so it is a
   * function of that role. No role grants nothing; a role grants its own name
   * (case-insensitively) and, when `permisos` is not empty, every entry of that list.
   */
  function ValidarRol(rol: Option<Rol>, permiso: string): (ok: bool)
    ensures rol.None? ==> !ok
    ensures rol.Some? && Lower(rol.value.nombre) == Lower(permiso) ==> ok
    ensures rol.Some? && rol.value.permisos == "" ==> (ok <==> Lower(rol.value.nombre) == Lower(permiso))
  {
    match rol
    case None => false
    case Some(r) =>
      if Lower(r.nombre) == Lower(permiso) then true
      else if r.permisos != "" then
        var listaPermisos := NormalizeEntries(Split(r.permisos, ','));
        Lower(permiso) in listaPermisos
      else false
  }

  /** `entries` is a decomposition of `s` into comma-free fields separated by commas. */
  ghost predicate IsCommaList(entries: seq<string>, s: string) {
    && |entries| >= 1
    && (forall k :: 0 <= k < |entries| ==> ',' !in entries[k])
    && Join(entries, ',') == s
  }

  /**
   * Reference definition of what a role grants, independent of `Split`:
   * its name, or any field of its non-empty comma-separated list, compared
   * after trimming the field and lower-casing both sides.
   */
  ghost predicate Grants(r: Rol, permiso: string) {
    || Lower(r.nombre) == Lower(permiso)
    || (&& r.permisos != ""
        && exists entries :: IsCommaList(entries, r.permisos)
             && exists k :: 0 <= k < |entries| && Lower(Trim(entries[k])) == Lower(permiso))
  }

  /** `ValidarRol` agrees with the reference definition, in both directions. */
  lemma ValidarRolGrants(r: Rol, permiso: string)
    ensures ValidarRol(Some(r), permiso) <==> Grants(r, permiso)
  {
    if ValidarRol(Some(r), permiso) {
      ValidarRolOnlyGrants(r, permiso);
    }
    if Grants(r, permiso) {
      GrantsListed(r, permiso);
    }
  }

  lemma ValidarRolOnlyGrants(r: Rol, permiso: string)
    requires ValidarRol(Some(r), permiso)
    ensures Grants(r, permiso)
  {
    if Lower(r.nombre) != Lower(permiso) {
      var parts := Split(r.permisos, ',');
      var normalized := NormalizeEntries(parts);
      var k :| 0 <= k < |normalized| && normalized[k] == Lower(permiso);
      assert IsCommaList(parts, r.permisos);
      assert Lower(Trim(parts[k])) == Lower(permiso);
    }
  }

  lemma GrantsListed(r: Rol, permiso: string)
    requires Grants(r, permiso)
    ensures ValidarRol(Some(r), permiso)
  {
    if Lower(r.nombre) != Lower(permiso) {
      var entries, k :| IsCommaList(entries, r.permisos)
        && 0 <= k < |entries| && Lower(Trim(entries[k])) == Lower(permiso);
      SplitJoin(entries, ',');
      assert NormalizeEntries(Split(r.permisos, ','))[k] == Lower(permiso);
    }
  }

  /** The normalized permission list of `s` depends only on `Lower(s)`. */
  lemma NormalizedIgnoresCase(s: string)
    ensures NormalizeEntries(Split(Lower(s), ',')) == NormalizeEntries(Split(s, ','))
  {
    var parts := Split(s, ',');
    SplitLower(s);
    forall k | 0 <= k < |parts|
      ensures Lower(Trim(Lower(parts[k]))) == Lower(Trim(parts[k]))
    {
      TrimLower(parts[k]);
      LowerAbsorbsCase(Trim(parts[k]));
    }
  }

  /**
   * The check is case-insensitive in everything it compares: roles whose name
   * and permission list agree up to ASCII case grant the same permissions,
   * and permissions that agree up to case are granted alike.
   */
  lemma ValidarRolIgnoresCase(r1: Rol, r2: Rol, p1: string, p2: string)
    requires Lower(r1.nombre) == Lower(r2.nombre)
    requires Lower(r1.permisos) == Lower(r2.permisos)
    requires Lower(p1) == Lower(p2)
    ensures ValidarRol(Some(r1), p1) == ValidarRol(Some(r2), p2)
  {
    NormalizedIgnoresCase(r1.permisos);
    NormalizedIgnoresCase(r2.permisos);
  }

  /** In particular `validarRol(p)` and `validarRol(p.toUpperCase())` agree. */
  lemma ValidarRolUpperCase(rol: Option<Rol>, permiso: string)
    ensures ValidarRol(rol, Upper(permiso)) == ValidarRol(rol, permiso)
  {
    LowerAbsorbsCase(permiso);
    if rol.Some? {
      ValidarRolIgnoresCase(rol.value, rol.value, Upper(permiso), permiso);
    }
  }

  /**
   * The requested permission is not trimmed: one that starts or ends with
   * whitespace never matches a list entry, so only the role's name can grant it.
   */
  lemma ValidarRolUntrimmedPermiso(r: Rol, permiso: string)
    requires permiso != [] && (IsWhitespace(permiso[0]) || IsWhitespace(permiso[|permiso| - 1]))
    ensures ValidarRol(Some(r), permiso) <==> Lower(r.nombre) == Lower(permiso)
  {
    UntrimmedNotListed(Split(r.permisos, ','), permiso);
  }

  /** No entry of a normalized list equals a lower-cased string that starts or ends with whitespace. */
  lemma UntrimmedNotListed(entries: seq<string>, permiso: string)
    requires permiso != [] && (IsWhitespace(permiso[0]) || IsWhitespace(permiso[|permiso| - 1]))
    ensures Lower(permiso) !in NormalizeEntries(entries)
  {
    var lp := Lower(permiso);
    LowerCharWhitespace(permiso[0]);
    LowerCharWhitespace(permiso[|permiso| - 1]);
    var normalized := NormalizeEntries(entries);
    forall k | 0 <= k < |entries|
      ensures normalized[k] != lp
    {
      NormalizedEntryTrimmed(entries[k]);
    }
  }

  /** A normalized entry neither starts nor ends with whitespace. */
  lemma NormalizedEntryTrimmed(e: string)
    ensures var n := Lower(Trim(e)); n == [] || (!IsWhitespace(n[0]) && !IsWhitespace(n[|n| - 1]))
  {
    TrimLower(e);
  }

  /**
   * The user account. Constructed with both reset fields and the role null;
   * `setResetToken` sets the two reset fields together.
   */
  class Usuario {
    var id: int
    var email: string
    var passwordHash: string
    var nombre: string
    var resetToken: Option<string>
    var tokenExpiracion: Option<int>
    var rol: Option<Rol>

    /** The reset token and its expiry are both set or both null. */
    ghost predicate ResetFieldsPaired()
      reads this
    {
      resetToken.Some? <==> tokenExpiracion.Some?
    }

    constructor(id: int, email: string, passHash: string, nombre: string)
      ensures this.id == id && this.email == email
      ensures this.passwordHash == passHash && this.nombre == nombre
      ensures resetToken == None && tokenExpiracion == None && rol == None
      ensures ResetFieldsPaired()
    {
      this.id := id;
      this.email := email;
      this.passwordHash := passHash;
      this.nombre := nombre;
      this.resetToken := None;
      this.tokenExpiracion := None;
      this.rol := None;
    }

    /**
     * `randomBytes(32).toString('hex')`, with the 32 random bytes passed in:
     * a 64-character lower-case hex string that carries exactly those bytes.
     */
    method GenerarTokenTemporal(entropia: seq<byte>) returns (token: string)
      requires |entropia| == RecoveryTokenBytes
      ensures |token| == 64 && IsLowerHex(token)
      ensures HexDecode(token) == Some(entropia)
    {
      token := HexEncode(entropia);
      HexDecodeEncode(entropia);
    }

    /** Sets the reset token and its expiry, together, and nothing else. */
    method SetResetToken(token: string, expiracion: int)
      modifies this
      ensures resetToken == Some(token) && tokenExpiracion == Some(expiracion)
      ensures ResetFieldsPaired()
      ensures id == old(id) && email == old(email) && passwordHash == old(passwordHash)
      ensures nombre == old(nombre) && rol == old(rol)
    {
      resetToken := Some(token);
      tokenExpiracion := Some(expiracion);
    }
  }
}
