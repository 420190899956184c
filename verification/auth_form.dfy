/** The authentication modal of the frontend: its form fields, the client-side checks,
    the submit sequence around the parent's `onAuthSubmit`, the reset on a mode change,
    the disabled state of the submit button and the error it shows. */
module AuthForm {
  import opened Wrappers
  import opened Text

  datatype Fields = Fields(email: string, password: string, username: string)

  /** Which input an edit comes from. */
  datatype Field = Email | Password | Username

  /** The modal's state. `signup` is `mode === "signup"`; `serverError` is the `error`
      prop the parent passes in. */
  datatype Modal = Modal(signup: bool, fields: Fields, loading: bool, localError: string,
                         serverError: string)

  /** The first half of `handleSubmit`: ignored while loading, refused by a client-side
      check (with the new local error), or the fields handed to `onAuthSubmit` with the
      modal now loading. */
  datatype Submission = Ignored | Refused(modal: Modal) | Sent(modal: Modal, fields: Fields)

  const Blank: Fields := Fields("", "", "")
  const MinPassword: nat := 6
  const ShortPassword: string := "Password must be at least 6 characters"
  const UsernameRequired: string := "Username is required"

  /** `validatePassword(password)`: in signup mode a password shorter than six characters
      sets the local error and fails; anything else clears the local error and passes. */
  function ValidatePassword(m: Modal, password: string): (r: (Modal, bool))
    ensures r.1 <==> !m.signup || |password| >= MinPassword
    ensures r.1 ==> r.0.localError == ""
    ensures !r.1 ==> r.0.localError == ShortPassword
    ensures r.0 == m.(localError := r.0.localError)
  {
    if m.signup && |password| < MinPassword then (m.(localError := ShortPassword), false)
    else (m.(localError := ""), true)
  }

  /** `handleInputChange`: store the value; an edit of the password is validated at once. */
  function InputChange(m: Modal, field: Field, value: string): (r: Modal)
    ensures field == Password ==>
      r.fields.password == value && (r.localError == "" <==> !m.signup || |value| >= MinPassword)
    ensures field != Password ==> r.localError == m.localError && r.fields.password == m.fields.password
    ensures r.signup == m.signup && r.loading == m.loading && r.serverError == m.serverError
    ensures field == Email ==> r.fields == m.fields.(email := value)
    ensures field == Username ==> r.fields == m.fields.(username := value)
    ensures field == Password ==> r.fields == m.fields.(password := value)
  {
    match field
    case Email => m.(fields := m.fields.(email := value))
    case Username => m.(fields := m.fields.(username := value))
    case Password => ValidatePassword(m.(fields := m.fields.(password := value)), value).0
  }

  /** `handleSubmit` up to the call of `onAuthSubmit`. */
  function Submit(m: Modal): (r: Submission)
    ensures m.loading <==> r == Ignored
    ensures !m.loading && m.signup && IsBlank(m.fields.username) ==>
      r == Refused(m.(localError := UsernameRequired))
    ensures !m.loading && m.signup && !IsBlank(m.fields.username) && |m.fields.password| < MinPassword ==>
      r == Refused(m.(localError := ShortPassword))
    ensures r.Refused? ==> r.modal.localError != "" && r.modal.fields == m.fields && !r.modal.loading
    ensures r.Sent? ==>
      r.fields == m.fields && r.modal.loading && r.modal.localError == "" && r.modal.fields == m.fields
    ensures r.Sent? <==> !m.loading && (m.signup ==> !IsBlank(m.fields.username) && |m.fields.password| >= MinPassword)
  {
    if m.loading then Ignored
    else if m.signup && Trim(m.fields.username) == "" then Refused(m.(localError := UsernameRequired))
    else
      var (checked, ok) := ValidatePassword(m, m.fields.password);
      if !ok then Refused(checked)
      else Sent(checked.(loading := true), m.fields)
  }

  /** The rest of `handleSubmit` once the promise of `onAuthSubmit` has settled: when it
      resolved the fields are cleared; resolved or rejected, loading ends. Both parent
      pages catch their own request errors, so with them the promise always resolves and
      the fields are cleared even after a failed login. */
  function Settle(m: Modal, resolved: bool): (r: Modal)
    ensures !r.loading
    ensures resolved ==> r.fields == Blank
    ensures !resolved ==> r.fields == m.fields
    ensures r.localError == m.localError && r.signup == m.signup && r.serverError == m.serverError
  {
    if resolved then m.(fields := Blank, loading := false) else m.(loading := false)
  }

  /** The effect that runs when the mode changes: the fields are emptied and the local
      error cleared; the server error is cleared only when the parent passed
      `setAuthError`. */
  function ChangeMode(m: Modal, signup: bool, canClearServerError: bool): (r: Modal)
    ensures r.signup == signup && r.fields == Blank && r.localError == ""
    ensures r.serverError == if canClearServerError then "" else m.serverError
    ensures r.loading == m.loading
  {
    Modal(signup, Blank, m.loading, "", if canClearServerError then "" else m.serverError)
  }

  /** The `disabled` expression of the submit button. */
  predicate SubmitDisabled(m: Modal)
  {
    m.loading || (m.signup && IsBlank(m.fields.username)) || m.fields.email == ""
    || m.fields.password == "" || m.localError != ""
  }

  /** The message shown above the form: the server error takes precedence over the local one. */
  function ShownError(m: Modal): (r: Option<string>)
    ensures m.serverError != "" ==> r == Some(m.serverError)
    ensures m.serverError == "" && m.localError != "" ==> r == Some(m.localError)
    ensures r.None? <==> m.serverError == "" && m.localError == ""
  {
    if m.serverError != "" then Some(m.serverError)
    else if m.localError != "" then Some(m.localError)
    else None
  }

  /** Without `setAuthError` from the parent, a mode change keeps the server error on
      screen over the emptied form; with it, nothing is shown afterwards. */
  lemma ModeChangeKeepsServerError(m: Modal, signup: bool)
    requires m.serverError != ""
    ensures ShownError(ChangeMode(m, signup, false)) == Some(m.serverError)
    ensures ShownError(ChangeMode(m, signup, true)) == None
  {
  }

  /** The actions that never clear a server error: everything except a new error from the
      parent and a mode change with `setAuthError`. */
  predicate KeepsServerError(a: Action)
  {
    !a.ServerSays? && !(a.SwitchMode? && a.canClearServerError)
  }

  /** Once the parent has reported an error, it stays the message shown through any
      edits, submits and mode changes that cannot clear it: the local checks never get
      to show their messages. A submit that is sent is followed by the parent's
      `setAuthError("")`, which is the action `ServerSays("")` and is not among these. */
  lemma {:induction false} ServerErrorPersists(m: Modal, actions: seq<Action>)
    requires m.serverError != ""
    requires forall k :: 0 <= k < |actions| ==> KeepsServerError(actions[k])
    ensures ShownError(Replay(m, actions)) == Some(m.serverError)
    decreases |actions|
  {
    if |actions| > 0 {
      var next := Act(m, actions[0]);
      assert next.serverError == m.serverError;
      ServerErrorPersists(next, actions[1..]);
    }
  }

  /** What every reachable modal satisfies: in signup mode a non-empty password shorter
      than six characters is always accompanied by a local error. */
  predicate Consistent(m: Modal)
  {
    m.signup && 0 < |m.fields.password| < MinPassword ==> m.localError != ""
  }

  /** The modal's actions, as one step each. */
  datatype Action =
    | Edit(field: Field, value: string)
    | Press
    | Finish(resolved: bool)
    | SwitchMode(signup: bool, canClearServerError: bool)
    | ServerSays(error: string)

  function Act(m: Modal, a: Action): Modal
  {
    match a
    case Edit(field, value) => InputChange(m, field, value)
    case Press =>
      (match Submit(m)
       case Ignored => m
       case Refused(m') => m'
       case Sent(m', _) => m')
    case Finish(ok) => Settle(m, ok)
    case SwitchMode(signup, clear) => ChangeMode(m, signup, clear)
    case ServerSays(e) => m.(serverError := e)
  }

  function Initial(signup: bool): Modal
  {
    Modal(signup, Blank, false, "", "")
  }

  lemma ActConsistent(m: Modal, a: Action)
    requires Consistent(m)
    ensures Consistent(Act(m, a))
  {
  }

  function Replay(m: Modal, actions: seq<Action>): Modal
    decreases |actions|
  {
    if |actions| == 0 then m else Replay(Act(m, actions[0]), actions[1..])
  }

  /** Every modal reached from a fresh one by any actions is consistent. */
  lemma {:induction false} ReplayConsistent(signup: bool, actions: seq<Action>)
    ensures Consistent(Replay(Initial(signup), actions))
  {
    ReplayFrom(Initial(signup), actions);
  }

  lemma {:induction false} ReplayFrom(m: Modal, actions: seq<Action>)
    requires Consistent(m)
    ensures Consistent(Replay(m, actions))
    decreases |actions|
  {
    if |actions| > 0 {
      ActConsistent(m, actions[0]);
      ReplayFrom(Act(m, actions[0]), actions[1..]);
    }
  }

  /** An enabled submit button is never refused by the client-side checks: pressing it
      on a consistent modal always hands the fields to `onAuthSubmit`. */
  lemma EnabledSubmitIsSent(m: Modal)
    requires Consistent(m) && !SubmitDisabled(m)
    ensures Submit(m).Sent?
  {
  }

  /** In login mode the password check never fails. */
  lemma LoginAcceptsAnyPassword(m: Modal, password: string)
    requires !m.signup
    ensures ValidatePassword(m, password) == (m.(localError := ""), true)
  {
  }
}
