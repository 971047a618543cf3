/** The three login handlers side by side: the same mistake is answered
    differently depending on who is logging in. */
module LoginCodes {
  import opened Js
  import opened Platform
  import Rows
  import EmployeeModel
  import AuthController
  import SubadminController
  import AdminController

  /** An email no account holds: 401 for an employee, 404 for a subadmin and
      404 for an admin. */
  lemma UnknownEmailByActor(employees: seq<EmployeeModel.Employee>, subadmins: seq<SubadminController.Subadmin>,
                            admins: seq<AdminController.AdminDocument>, email: string, password: string, env: Env)
    requires email != "" && password != ""
    requires Rows.KeysDistinct(employees, EmployeeModel.EmailOf)
    requires Rows.KeysDistinct(subadmins, SubadminController.EmailOf)
    requires forall e :: e in employees ==> e.email != EmployeeModel.NormalizeEmail(email)
    requires forall s :: s in subadmins ==> s.email != email
    requires forall d :: d in admins ==> AdminController.EmailField(d) != Some(email)
    ensures AuthController.Login(employees, Some(email), Some(password), env) == Refuse(401, "Invalid credentials")
    ensures SubadminController.LoginSubadmin(subadmins, email, password, env) == Refuse(404, "Subadmin not found")
    ensures AdminController.LoginAdmin(admins, [], email, password, env) == Refuse(404, "Admin not found")
  {
  }

  /** A known email with a wrong password is a 401 for a subadmin and for an
      admin alike. */
  lemma WrongPasswordByActor(subadmins: seq<SubadminController.Subadmin>, s: SubadminController.Subadmin,
                             admins: seq<AdminController.AdminDocument>, d: AdminController.AdminDocument,
                             password: string, env: Env)
    requires Rows.KeysDistinct(subadmins, SubadminController.EmailOf) && s in subadmins
    requires !env.compare(password, s.password)
    requires Rows.KeysDistinct(admins, AdminController.EmailField) && d in admins
    requires "email" in d && "password" in d && !env.compare(password, d["password"])
    ensures SubadminController.LoginSubadmin(subadmins, s.email, password, env) == Refuse(401, "Invalid credentials")
    ensures AdminController.LoginAdmin(admins, [], d["email"], password, env) == Refuse(401, "Invalid credentials")
  {
    Rows.OnlyHolder(subadmins, SubadminController.EmailOf, s);
    Rows.OnlyHolder(admins, AdminController.EmailField, d);
  }
}
