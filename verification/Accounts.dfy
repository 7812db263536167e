/** The account columns that the one-time-code flows read and write. */
module Accounts {
  const STATUS_INACTIVE := 0
  const STATUS_ACTIVE := 1

  datatype User = User(
    email: string,
    password: string,          // a hash; "" when none was ever set
    emailConfirmed: bool,
    isActive: bool,
    status: int)

  /** Self-service signup: the account exists but is neither confirmed nor active. */
  function Registered(email: string, password: string): User {
    User(email, password, false, false, STATUS_INACTIVE)
  }

  /** `confirm_email` writes two flags and leaves `status` alone. */
  function EmailConfirmed(u: User): User {
    u.(emailConfirmed := true, isActive := true)
  }

  function WithPassword(u: User, hash: string): User {
    u.(password := hash)
  }

  /** The single-statement toggle behind the admin endpoint. */
  function Toggled(u: User): User {
    u.(isActive := !u.isActive,
       status := if u.status >= STATUS_ACTIVE then u.status - STATUS_ACTIVE else STATUS_ACTIVE - u.status)
  }

  /** The account gate of `login`, after the password itself was verified. */
  predicate LoginAdmits(u: User, passwordVerified: bool) {
    passwordVerified && u.isActive && u.emailConfirmed
  }

  /** The two activity flags drift: confirming a freshly registered account activates it and leaves
      `status` inactive. They agree afterwards exactly when `status` was active already. */
  lemma StatusAgreesAfterConfirmIff(u: User)
    ensures EmailConfirmed(u).isActive == (EmailConfirmed(u).status == STATUS_ACTIVE)
            <==> u.status == STATUS_ACTIVE
    ensures forall email, password ::
              var user := EmailConfirmed(Registered(email, password));
              user.isActive != (user.status == STATUS_ACTIVE)
  {
  }
}
