/** `UserRegistrationViewModel`: the earlier registration model, whose
    only check compares the password with its confirmation. */
module RegistrationPlain {
  import Registration

  /** The view model's three published fields, as a value: its one check
      reads them and changes none. */
  datatype UserRegistrationViewModel = UserRegistrationViewModel(email: string, password: string, confirmPassword: string)

  /** `matchPassword`: plain equality, with no validity check. */
  predicate MatchPassword(m: UserRegistrationViewModel) {
    m.password == m.confirmPassword
  }

  /** Two fields holding the same text match, the empty text included, and
      the e-mail field plays no part. */
  lemma MatchPasswordReflexive(email: string, text: string)
    ensures MatchPassword(UserRegistrationViewModel(email, text, text))
    ensures MatchPassword(UserRegistrationViewModel(email, "", ""))
  {
  }

  lemma MatchPasswordIgnoresEmail(m: UserRegistrationViewModel, email: string)
    ensures MatchPassword(m.(email := email)) == MatchPassword(m)
  {
  }

  /** The stricter check of `UserRegisterViewModel` implies this one, and
      not conversely: two empty fields match here but not there. */
  lemma StricterMatchImpliesPlainMatch(m: UserRegistrationViewModel)
    ensures Registration.MatchPassword(m.password, m.confirmPassword) ==> MatchPassword(m)
    ensures MatchPassword(UserRegistrationViewModel(m.email, "", ""))
            && !Registration.MatchPassword("", "")
  {
  }
}
