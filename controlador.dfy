/**
 * `AuthControlador`: registration, login, recovery request and permission
 * check, each a short sequence of reads and writes on the repository.
 * Failures are tagged outcomes rather than thrown messages.
 */
module Controlador {
  import opened Wrappers
  import opened Crypto
  import opened Jwt
  import opened Entidades
  import opened Repositorio

  /** The role every new account receives (`restaurant_admin`). */
  const RolPorDefecto := 2

  /** A recovery token is valid for one hour after it is issued, in seconds. */
  const ValidezRecuperacion := 3600

  /** The role claim of a session token when the user has no usable role name. */
  const SinRol := "sin_rol"

  /** The four errors the controller throws, one per message. */
  datatype AuthError =
    | CorreoDuplicado      // 'El correo electrónico ya está registrado'
    | UsuarioNoEncontrado  // 'Usuario no encontrado'
    | ContrasenaIncorrecta // 'Contraseña incorrecta'
    | EmailNoRegistrado    // 'Email no registrado en el sistema'

  /** `usuario.rol?.nombre || 'sin_rol'`: the role claim is never empty. */
  function ClaimRol(rol: Option<Rol>): (claim: string)
    ensures claim != ""
    ensures rol.Some? && rol.value.nombre != "" ==> claim == rol.value.nombre
    ensures rol.None? || rol.value.nombre == "" ==> claim == SinRol
  {
    if rol.Some? && rol.value.nombre != "" then rol.value.nombre else SinRol
  }

  class AuthControlador {
    const authRepo: AuthRepositorio
    /** bcryptjs. */
    const bcrypt: Bcrypt
    /** `generarToken`: signs a payload into a session token. */
    const firmar: JwtPayload -> string

    ghost predicate Valid()
      reads authRepo
    {
      authRepo.Valid() && bcrypt.Sound()
    }

    constructor(authRepo: AuthRepositorio, bcrypt: Bcrypt, firmar: JwtPayload -> string)
      ensures this.authRepo == authRepo && this.bcrypt == bcrypt && this.firmar == firmar
    {
      this.authRepo := authRepo;
      this.bcrypt := bcrypt;
      this.firmar := firmar;
    }

    /**
     * Registers an account: refused when the email is taken; otherwise one row
     * with a fresh id, the email, the hash of the password and the name, and
     * that id paired with the default role. `salt` stands for `genSalt(10)`.
     */
    method Registrar(datos: AutenticacionDTO, salt: string) returns (r: Result<(), AuthError>)
      requires Valid()
      modifies authRepo
      ensures Valid()
      ensures old(authRepo.HasEmail(datos.email)) ==>
        && r == Failure(CorreoDuplicado)
        && authRepo.users == old(authRepo.users)
        && authRepo.userRoles == old(authRepo.userRoles)
        && authRepo.nextId == old(authRepo.nextId)
      ensures !old(authRepo.HasEmail(datos.email)) ==>
        var id := old(authRepo.nextId);
        var hash := bcrypt.hash(datos.password, salt);
        && r == Success(())
        && id !in old(authRepo.users)
        && authRepo.users == old(authRepo.users)[id := UserRow(datos.email, hash, datos.nombre.GetOr(""), None, None)]
        && authRepo.userRoles == old(authRepo.userRoles) + {(id, RolPorDefecto)}
        && bcrypt.compare(datos.password, authRepo.users[id].passwordHash)
      ensures old(authRepo.ResetFieldsPaired()) ==> authRepo.ResetFieldsPaired()
    {
      var existente := authRepo.BuscarPorEmail(datos.email);
      if existente != null {
        return Failure(CorreoDuplicado);
      }
      var passwordHash := bcrypt.hash(datos.password, salt);
      var usuario := new Usuario(0, datos.email, passwordHash, datos.nombre.GetOr(""));
      ghost var id := authRepo.nextId;
      authRepo.Guardar(usuario);
      var userId := authRepo.ObtenerIdPorEmail(datos.email);
      assert userId == Some(id) by {
        assert id in authRepo.users && authRepo.users[id].email == datos.email;
        assert forall k :: k in authRepo.users && authRepo.users[k].email == datos.email ==> k == id;
      }
      if userId.Some? && userId.value != 0 {
        authRepo.AsignarRol(userId.value, RolPorDefecto);
      }
      r := Success(());
    }

    /**
     * Logs in: not found when no row has the email, wrong password when the
     * stored hash does not verify, and otherwise the token signed over the
     * user's id, email and role name. It writes nothing.
     */
    method Login(datos: AutenticacionDTO) returns (r: Result<string, AuthError>)
      ensures r == Failure(UsuarioNoEncontrado) <==> !authRepo.HasEmail(datos.email)
      ensures r.Failure? ==> r.error == UsuarioNoEncontrado || r.error == ContrasenaIncorrecta
      ensures r == Failure(ContrasenaIncorrecta) ==>
        exists id :: id in authRepo.users && authRepo.users[id].email == datos.email
          && !bcrypt.compare(datos.password, authRepo.users[id].passwordHash)
      ensures r.Success? ==>
        exists id, rol :: authRepo.Lookup(datos.email, id, rol)
          && bcrypt.compare(datos.password, authRepo.users[id].passwordHash)
          && r.value == firmar(JwtPayload(id, datos.email, ClaimRol(rol)))
      ensures authRepo.HasEmail(datos.email)
        && (forall id :: id in authRepo.users && authRepo.users[id].email == datos.email
              ==> bcrypt.compare(datos.password, authRepo.users[id].passwordHash))
        ==> r.Success?
    {
      var usuario := authRepo.BuscarPorEmail(datos.email);
      if usuario == null {
        return Failure(UsuarioNoEncontrado);
      }
      var credencialesValidas := bcrypt.compare(datos.password, usuario.passwordHash);
      if !credencialesValidas {
        return Failure(ContrasenaIncorrecta);
      }
      var rolNombre := ClaimRol(usuario.rol);
      var token := firmar(JwtPayload(usuario.id, usuario.email, rolNombre));
      r := Success(token);
    }

    /**
     * Requests a recovery: refused, with no write, when no row has the email;
     * otherwise one such row gets the hex token of `entropia` (the 32 random
     * bytes) and the expiry `ahora` plus one hour, and the token is returned.
     */
    method SolicitarRecuperacion(email: string, entropia: seq<byte>, ahora: int) returns (r: Result<string, AuthError>)
      requires authRepo.Valid()
      requires |entropia| == RecoveryTokenBytes
      modifies authRepo
      ensures authRepo.Valid()
      ensures authRepo.userRoles == old(authRepo.userRoles) && authRepo.nextId == old(authRepo.nextId)
      ensures !old(authRepo.HasEmail(email)) ==>
        r == Failure(EmailNoRegistrado) && authRepo.users == old(authRepo.users)
      ensures old(authRepo.HasEmail(email)) ==>
        && r.Success?
        && |r.value| == 64 && IsLowerHex(r.value) && HexDecode(r.value) == Some(entropia)
        && exists id :: id in old(authRepo.users) && old(authRepo.users)[id].email == email
             && authRepo.users == old(authRepo.users)[id := old(authRepo.users)[id].(
                  resetToken := Some(r.value), tokenExpiracion := Some(ahora + ValidezRecuperacion))]
      ensures old(authRepo.ResetFieldsPaired()) ==> authRepo.ResetFieldsPaired()
    {
      var usuario := authRepo.BuscarPorEmail(email);
      if usuario == null {
        return Failure(EmailNoRegistrado);
      }
      ghost var id := usuario.id;
      var token := usuario.GenerarTokenTemporal(entropia);
      var expiracion := ahora + ValidezRecuperacion;
      usuario.SetResetToken(token, expiracion);
      authRepo.Guardar(usuario);
      r := Success(token);
    }

    /** Whether the user with this email holds the permission; false for an unknown email. It writes nothing. */
    method VerificarPermisos(email: string, permiso: string) returns (ok: bool)
      ensures !authRepo.HasEmail(email) ==> !ok
      ensures authRepo.HasEmail(email) ==>
        exists id, rol :: authRepo.Lookup(email, id, rol) && ok == ValidarRol(rol, permiso)
    {
      var usuario := authRepo.BuscarPorEmail(email);
      if usuario == null {
        return false;
      }
      ok := ValidarRol(usuario.rol, permiso);
    }
  }

  /**
   * Registration followed by login: the right password yields a session token
   * for that email, and any password that does not verify against the stored
   * hash is refused as a wrong password.
   */
  method RegistroYLogin(c: AuthControlador, email: string, password: string, nombre: string, salt: string, otra: string)
    returns (registro: Result<(), AuthError>, sesion: Result<string, AuthError>, rechazo: Result<string, AuthError>)
    requires c.Valid()
    requires !c.authRepo.HasEmail(email)
    requires !c.bcrypt.compare(otra, c.bcrypt.hash(password, salt))
    modifies c.authRepo
    ensures registro == Success(())
    ensures sesion.Success?
    ensures exists rol ::
      && c.authRepo.JoinedRole(old(c.authRepo.nextId), rol)
      && sesion.value == c.firmar(JwtPayload(old(c.authRepo.nextId), email, ClaimRol(rol)))
    ensures rechazo == Failure(ContrasenaIncorrecta)
  {
    ghost var id := c.authRepo.nextId;
    registro := c.Registrar(AutenticacionDTO(email, password, Some(nombre), None), salt);
    assert forall k :: k in c.authRepo.users && c.authRepo.users[k].email == email ==> k == id;
    sesion := c.Login(AutenticacionDTO(email, password, None, None));
    rechazo := c.Login(AutenticacionDTO(email, otra, None, None));
  }
}
