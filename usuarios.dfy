/**
 * The user-administration page: its ADMIN-only gate, the checks and field
 * normalisation of "Crear usuario", the activation flag and the password
 * reset. The database calls it makes are not part of this model; what is
 * modelled is the record each of them would receive.
 */
module Usuarios {
  import opened Wrappers
  import opened Text
  import Auth
  import Records

  /** The Sí option of the Activo selection. */
  const Si: string := "Sí"

  /** A row of `roles`. */
  datatype RolRow = RolRow(nombre: string, id: nat)

  /** The `{nombre: id}` dictionary, built in row order. */
  function RolesMap(rows: seq<RolRow>): map<string, nat>
  {
    if rows == [] then map[] else RolesMap(rows[..|rows| - 1])[rows[|rows| - 1].nombre := rows[|rows| - 1].id]
  }

  /** Its keys are exactly the role names. */
  lemma {:induction false} RolesMapKeys(rows: seq<RolRow>)
    ensures forall x :: x in RolesMap(rows) <==> exists k :: 0 <= k < |rows| && rows[k].nombre == x
  {
    if rows != [] {
      var n := |rows| - 1;
      var init := rows[..n];
      RolesMapKeys(init);
      assert RolesMap(rows) == RolesMap(init)[rows[n].nombre := rows[n].id];
      forall x | x in RolesMap(rows) ensures exists k :: 0 <= k < |rows| && rows[k].nombre == x {
        if x != rows[n].nombre {
          var k :| 0 <= k < n && init[k].nombre == x;
          assert rows[k] == init[k];
        }
      }
      forall k | 0 <= k < |rows| ensures rows[k].nombre in RolesMap(rows) {
        if k < n {
          assert rows[k] == init[k];
        }
      }
    }
  }

  /** A name resolves to the id of the last row that carries it. */
  lemma {:induction false} RolesMapLastWins(rows: seq<RolRow>, k: nat)
    requires k < |rows|
    requires forall j :: k < j < |rows| ==> rows[j].nombre != rows[k].nombre
    ensures rows[k].nombre in RolesMap(rows) && RolesMap(rows)[rows[k].nombre] == rows[k].id
  {
    var n := |rows| - 1;
    var init := rows[..n];
    assert RolesMap(rows) == RolesMap(init)[rows[n].nombre := rows[n].id];
    if k < n {
      assert init[k] == rows[k];
      assert rows[n].nombre != rows[k].nombre;
      assert forall j :: k < j < |init| ==> init[j].nombre != init[k].nombre by {
        assert forall j :: k < j < |init| ==> init[j] == rows[j];
      }
      RolesMapLastWins(init, k);
    }
  }

  /** The record handed to `crear_usuario`. */
  datatype NuevoUsuario = NuevoUsuario(
    username: string, nombre: Option<string>, passwordHash: string, rolId: nat, activo: int)

  datatype CrearError = UsuarioVacio | ClavesInvalidas | RolDesconocido

  /**
   * "Crear usuario": the login must have non-blank text, the two passwords
   * must match and not be empty, and the chosen role must be in the
   * dictionary (an empty role list selects nothing, and the lookup raises).
   * The login is stored stripped; the name is stored stripped, or NULL when
   * left empty; the hash is that of the first password.
   */
  function CrearUsuario(username: string, nombre: string, activoSel: string, pass1: string, pass2: string,
                        rolSel: Option<string>, rolesMap: map<string, nat>, hashpw: string -> string)
    : (r: Result<NuevoUsuario, CrearError>)
    ensures r == Failure(UsuarioVacio) <==> Strip(username) == ""
    ensures r == Failure(ClavesInvalidas) <==> Strip(username) != "" && (pass1 != pass2 || pass1 == "")
    ensures r == Failure(RolDesconocido) <==>
              Strip(username) != "" && pass1 == pass2 && pass1 != "" && !(rolSel.Some? && rolSel.value in rolesMap)
    ensures r.Success? ==>
              && r.value.username == Strip(username)
              && r.value.username != [] && !IsSpace(r.value.username[0])
              && !IsSpace(r.value.username[|r.value.username| - 1])
              && (r.value.nombre.None? <==> nombre == "")
              && (r.value.nombre.Some? ==> r.value.nombre.value == Strip(nombre))
              && r.value.passwordHash == hashpw(pass1) && pass1 == pass2
              && rolSel.Some? && r.value.rolId == rolesMap[rolSel.value]
              && r.value.activo == ActivoFlag(activoSel)
  {
    if Strip(username) == "" then Failure(UsuarioVacio)
    else if pass1 != pass2 || pass1 == "" then Failure(ClavesInvalidas)
    else if rolSel.None? || rolSel.value !in rolesMap then Failure(RolDesconocido)
    else
      Success(NuevoUsuario(Strip(username), if nombre != "" then Some(Strip(nombre)) else None,
                           hashpw(pass1), rolesMap[rolSel.value], ActivoFlag(activoSel)))
  }

  /** The `activo` column of a new user: 1 for "Sí", 0 for anything else. */
  function ActivoFlag(sel: string): (flag: int)
    ensures flag == 0 || flag == 1
    ensures flag == 1 <==> sel == Si
  {
    if sel == Si then 1 else 0
  }

  /** The flag "Aplicar estado" sends: 1 for "Activar", 0 for anything else. */
  function EstadoFlag(sel: string): (flag: int)
    ensures flag == 0 || flag == 1
    ensures flag == 1 <==> sel == "Activar"
  {
    if sel == "Activar" then 1 else 0
  }

  datatype ResetError = ClavesNoCoinciden

  /** What `reset_password` receives: the user selected on the page and the new hash. */
  datatype PasswordReset = PasswordReset(userId: nat, passwordHash: string)

  /**
   * "Resetear contraseña" for the user selected by id: the new hash for that
   * user, unless the passwords differ or are empty.
   */
  function ResetPassword(userId: nat, np1: string, np2: string, hashpw: string -> string): (r: Result<PasswordReset, ResetError>)
    ensures r.Failure? <==> np1 != np2 || np1 == ""
    ensures r.Success? ==> r.value.userId == userId
    ensures r.Success? ==> r.value.passwordHash == hashpw(np1) && r.value.passwordHash == hashpw(np2)
  {
    if np1 != np2 || np1 == "" then Failure(ClavesNoCoinciden) else Success(PasswordReset(userId, hashpw(np1)))
  }

  /** The page opens for the ADMIN role only. */
  lemma OnlyAdminOpens(auth: Records.Cell<Auth.User>)
    ensures Auth.RequireRoles(auth, Auth.UsuariosRoles) <==> Auth.Rol(Auth.CurrentUser(auth)) == Some(Auth.Admin)
  {
  }
}
