/** The admin password form. */
module AdminLoginPage {
  import opened Wrappers
  import SupabaseService

  const WrongPasswordMessage := "비밀번호가 올바르지 않습니다."

  class LoginForm {
    var password: string
    var error: string

    constructor()
      ensures password == "" && error == ""
    {
      password, error := "", "";
    }

    /** The field as the user types. */
    method SetPassword(value: string)
      modifies this
      ensures password == value && error == old(error)
    {
      password := value;
    }

    /** `handleSubmit`: the error is cleared first; the right password is
        handed to `onLogin` (the result), any other sets the error and clears
        the field. */
    method HandleSubmit() returns (onLogin: Option<string>)
      modifies this
      ensures onLogin.Some? <==> SupabaseService.AdminLogin(old(password))
      ensures onLogin.Some? ==> onLogin.value == old(password) && error == "" && password == old(password)
      ensures onLogin.None? ==> error == WrongPasswordMessage && password == ""
    {
      error := "";
      if password == "admin1234" {
        onLogin := Some(password);
      } else {
        error := WrongPasswordMessage;
        password := "";
        onLogin := None;
      }
    }
  }
}
