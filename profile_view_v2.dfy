/** The second version's profile screen: one button that alternates
    between Edit (copy the profile into drafts) and Save (write back the
    non-empty drafts). */
module ProfileViewV2 {

  datatype Profile = Profile(name: string, email: string, password: string)

  /** What the button reads and writes: the stored profile, the mode and
      the three drafts. */
  datatype ScreenState = ScreenState(profile: Profile, editingMode: bool, drafts: Profile)

  /** `draft.isEmpty ? current : draft`. */
  function KeepUnlessEmpty(current: string, draft: string): (r: string)
    ensures r == current || r == draft
    ensures draft != "" ==> r == draft
    ensures current != "" ==> r != ""
  {
    if draft == "" then current else draft
  }

  /** One press of the button. */
  function Press(st: ScreenState): (r: ScreenState)
    ensures r.editingMode == !st.editingMode
    ensures !st.editingMode ==> r.profile == st.profile && r.drafts == st.profile
    ensures st.editingMode ==> r.drafts == st.drafts
    ensures st.editingMode ==>
              && r.profile.name == KeepUnlessEmpty(st.profile.name, st.drafts.name)
              && r.profile.email == KeepUnlessEmpty(st.profile.email, st.drafts.email)
              && r.profile.password == KeepUnlessEmpty(st.profile.password, st.drafts.password)
  {
    if st.editingMode then
      var saved := Profile(KeepUnlessEmpty(st.profile.name, st.drafts.name),
                           KeepUnlessEmpty(st.profile.email, st.drafts.email),
                           KeepUnlessEmpty(st.profile.password, st.drafts.password));
      st.(profile := saved, editingMode := false)
    else
      st.(drafts := st.profile, editingMode := true)
  }

  /** Edit followed by Save, with no typing in between, leaves the profile
      as it was and the screen out of editing mode. */
  lemma EditThenSaveKeepsProfile(st: ScreenState)
    requires !st.editingMode
    ensures Press(Press(st)).profile == st.profile
    ensures !Press(Press(st)).editingMode
  {
  }

  /** Save never empties a field that had a value. */
  lemma SaveNeverBlanks(st: ScreenState)
    requires st.editingMode
    requires st.profile.name != "" && st.profile.email != "" && st.profile.password != ""
    ensures Press(st).profile.name != "" && Press(st).profile.email != "" && Press(st).profile.password != ""
  {
  }

  /** After any number of presses from the initial screen, the mode tells
      the parity of the count. */
  function PressTimes(st: ScreenState, n: nat): ScreenState {
    if n == 0 then st else Press(PressTimes(st, n - 1))
  }

  lemma {:induction false} ModeIsParity(st: ScreenState, n: nat)
    ensures PressTimes(st, n).editingMode == (st.editingMode != (n % 2 == 1))
  {
    if n > 0 {
      ModeIsParity(st, n - 1);
    }
  }

  const DefaultProfile := Profile("John Smith", "veryreal@gmail.com", "password123")

  class ProfileViewModel {
    /** Stands for the `UUID` the model draws. */
    var userId: nat
    var name: string
    var email: string
    var password: string

    constructor(userId: nat)
      ensures this.userId == userId
      ensures Profile(name, email, password) == DefaultProfile
    {
      this.userId := userId;
      name := "John Smith";
      email := "veryreal@gmail.com";
      password := "password123";
    }
  }

  class ProfileView {
    var profileViewModel: ProfileViewModel
    var editingMode: bool
    var newName: string
    var newEmail: string
    var newPassword: string

    function State(): ScreenState
      reads this, profileViewModel
    {
      ScreenState(Profile(profileViewModel.name, profileViewModel.email, profileViewModel.password),
                  editingMode, Profile(newName, newEmail, newPassword))
    }

    /** A fresh screen over a fresh model: not editing, empty drafts. */
    constructor(userId: nat)
      ensures fresh(profileViewModel)
      ensures State() == ScreenState(DefaultProfile, false, Profile("", "", ""))
    {
      profileViewModel := new ProfileViewModel(userId);
      editingMode := false;
      newName, newEmail, newPassword := "", "", "";
    }

    /** The navigation-bar button's action. */
    method PressButton()
      modifies this, profileViewModel
      ensures profileViewModel == old(profileViewModel)
      ensures profileViewModel.userId == old(profileViewModel.userId)
      ensures State() == Press(old(State()))
    {
      if editingMode {
        profileViewModel.name := if newName == "" then profileViewModel.name else newName;
        profileViewModel.email := if newEmail == "" then profileViewModel.email else newEmail;
        profileViewModel.password := if newPassword == "" then profileViewModel.password else newPassword;
      } else {
        newName := profileViewModel.name;
        newEmail := profileViewModel.email;
        newPassword := profileViewModel.password;
      }
      editingMode := !editingMode;
    }
  }
}
