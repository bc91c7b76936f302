/** The admin session: login, logout and the settings tab's password change. */
module Admin {
  import opened Common
  import opened Types

  /** The record installed when nothing is stored. */
  const DEFAULT_ADMIN: AdminSession := AdminSession(false, "admin123")

  /** The shortest password the change form accepts. */
  const MIN_PASSWORD_LENGTH: nat := 4

  datatype AdminError = IncorrectPassword | WrongCurrentPassword | PasswordTooShort

  /** doLogin: logs in exactly when the candidate is the stored password; the password itself is kept. */
  function Login(admin: AdminSession, candidate: string): (r: Result<AdminSession, AdminError>)
    ensures r.Ok? <==> candidate == admin.password
    ensures r.Ok? ==> r.value.logged && r.value.password == admin.password
    ensures r.Err? ==> r.error == IncorrectPassword
  {
    if candidate == admin.password then Ok(admin.(logged := true)) else Err(IncorrectPassword)
  }

  /** doLogout: logged out, password kept. */
  function Logout(admin: AdminSession): (r: AdminSession)
    ensures !r.logged && r.password == admin.password
  {
    admin.(logged := false)
  }

  /** ChangePassword.change: the current password must match (checked first) and the new one must have
      at least four characters; on success only the password changes. */
  function ChangePassword(admin: AdminSession, current: string, newPassword: string): (r: Result<AdminSession, AdminError>)
    ensures r.Ok? <==> current == admin.password && |newPassword| >= MIN_PASSWORD_LENGTH
    ensures r.Ok? ==> r.value.password == newPassword && r.value.logged == admin.logged
    ensures r.Err? ==> r.error == if current != admin.password then WrongCurrentPassword else PasswordTooShort
  {
    if current != admin.password then Err(WrongCurrentPassword)
    else if |newPassword| < MIN_PASSWORD_LENGTH then Err(PasswordTooShort)
    else Ok(admin.(password := newPassword))
  }

  /** After a successful change the new password logs in and a different old one no longer does. */
  lemma ChangeThenLogin(admin: AdminSession, current: string, newPassword: string)
    requires ChangePassword(admin, current, newPassword).Ok?
    ensures Login(ChangePassword(admin, current, newPassword).value, newPassword).Ok?
    ensures current != newPassword ==> Login(ChangePassword(admin, current, newPassword).value, current).Err?
  {
  }

  /** A wrong password against the default record is rejected, leaving the session logged out. */
  lemma DefaultRejectsWrongPassword(candidate: string)
    requires candidate != "admin123"
    ensures Login(DEFAULT_ADMIN, candidate) == Err(IncorrectPassword)
    ensures !DEFAULT_ADMIN.logged
  {
  }
}
