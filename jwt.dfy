/** The session-token payload of `generarToken`; signing itself is a collaborator of the controller. */
module Jwt {

  /** The claims a session token carries. */
  datatype JwtPayload = JwtPayload(userId: int, email: string, rol: string)
}
