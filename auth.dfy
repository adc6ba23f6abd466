/**
 * The access checks every page runs first: the login gate, the role gate
 * with its "CONSULTA" default, the sidebar's name and role, and logout.
 */
module Auth {
  import opened Wrappers
  import opened Records

  /** The signed-in user's dictionary; `None` entries are Python `None`. */
  type User = map<string, Option<string>>

  const Consulta: string := "CONSULTA"
  const Admin: string := "ADMIN"

  /** The role lists the pages pass to the role gate. */
  const ReportesRoles: seq<string> := [Admin, "CONTADOR"]
  const CatalogosRoles: seq<string> := [Admin]
  const RolesPageRoles: seq<string> := [Admin, "ASISTENTE", "SOCIO"]
  const MovimientosRoles: seq<string> := [Admin, "ASISTENTE", "SOCIO"]
  const UsuariosRoles: seq<string> := [Admin]

  /** `user.get(key)`. */
  function Get(u: User, key: string): Option<string>
  {
    if key in u then u[key] else None
  }

  /** Python truthiness of a string-or-None value. */
  predicate Truthy(v: Option<string>)
  {
    v.Some? && v.value != ""
  }

  /** `st.session_state.get("auth") or {}`: no auth entry, `None` and an empty dictionary all give `{}`. */
  function CurrentUser(auth: Cell<User>): (u: User)
    ensures auth.Value? ==> u == auth.v
    ensures !auth.Value? ==> u == map[]
  {
    match auth
    case Value(u) => u
    case _ => map[]
  }

  /** `user.get("rol", "CONSULTA")`: a missing key reads as "CONSULTA", a `None` value stays `None`. */
  function Rol(u: User): (r: Option<string>)
    ensures "rol" !in u ==> r == Some(Consulta)
    ensures "rol" in u ==> r == u["rol"]
  {
    if "rol" in u then u["rol"] else Some(Consulta)
  }

  /** `require_roles(*roles)`: whether the page goes on (true) or stops with an error (false). */
  function RequireRoles(auth: Cell<User>, roles: seq<string>): (pass: bool)
    ensures pass <==> Rol(CurrentUser(auth)).Some? && Rol(CurrentUser(auth)).value in roles
    ensures !auth.Value? ==> (pass <==> Consulta in roles)
  {
    match Rol(CurrentUser(auth))
    case Some(r) => r in roles
    case None => false
  }

  /** `nombre` of the sidebar: the user's nombre, else their usuario, else "Usuario". */
  function SidebarName(auth: Cell<User>): (name: string)
    ensures name != ""
    ensures Truthy(Get(CurrentUser(auth), "nombre")) ==> name == Get(CurrentUser(auth), "nombre").value
    ensures !Truthy(Get(CurrentUser(auth), "nombre")) && Truthy(Get(CurrentUser(auth), "usuario"))
            ==> name == Get(CurrentUser(auth), "usuario").value
    ensures !Truthy(Get(CurrentUser(auth), "nombre")) && !Truthy(Get(CurrentUser(auth), "usuario"))
            ==> name == "Usuario"
  {
    var u := CurrentUser(auth);
    if Truthy(Get(u, "nombre")) then Get(u, "nombre").value
    else if Truthy(Get(u, "usuario")) then Get(u, "usuario").value
    else "Usuario"
  }

  /** The role text of the sidebar (`f"{rol}"`, where `None` prints as "None"). */
  function SidebarRol(auth: Cell<User>): (text: string)
    ensures Rol(CurrentUser(auth)).Some? ==> text == Rol(CurrentUser(auth)).value
    ensures Rol(CurrentUser(auth)).None? ==> text == "None"
    ensures !auth.Value? ==> text == Consulta
  {
    match Rol(CurrentUser(auth))
    case Some(r) => r
    case None => "None"
  }

  /** No page's role list holds "CONSULTA", so a session without a role is turned away from all of them. */
  lemma DefaultRoleSeesNoPage(auth: Cell<User>)
    requires Rol(CurrentUser(auth)) == Some(Consulta)
    ensures !RequireRoles(auth, ReportesRoles) && !RequireRoles(auth, CatalogosRoles)
    ensures !RequireRoles(auth, RolesPageRoles) && !RequireRoles(auth, MovimientosRoles)
    ensures !RequireRoles(auth, UsuariosRoles)
  {
  }

  /** The session state the access checks read and write. */
  class Session {
    /** The `auth` entry: absent, `None`, or the signed-in user. */
    var auth: Cell<User>
    /** The names of the session's other entries (the line table, widget keys, ...). */
    var otherKeys: set<string>

    constructor ()
      ensures auth == Absent && otherKeys == {}
    {
      auth := Absent;
      otherKeys := {};
    }

    /**
     * `require_login`: creates the `auth` entry as `None` when it is absent,
     * then stops the page with the login screen iff it is `None`.
     */
    method RequireLogin() returns (stop: bool)
      modifies this
      ensures auth == (if old(auth).Absent? then Null else old(auth))
      ensures otherKeys == old(otherKeys)
      ensures stop <==> !old(auth).Value?
      ensures stop <==> auth == Null
    {
      if auth.Absent? {
        auth := Null;
      }
      stop := auth.Null?;
    }

    /** The logout button: `st.session_state.clear()`. */
    method Logout()
      modifies this
      ensures auth == Absent && otherKeys == {}
    {
      auth := Absent;
      otherKeys := {};
    }
  }

  /** After logging out, the next page's login gate stops it. */
  method LogoutThenNextPage(s: Session) returns (stop: bool)
    modifies s
    ensures stop && s.auth == Null && s.otherKeys == {}
  {
    s.Logout();
    stop := s.RequireLogin();
  }
}
