/**
 * The sign-in / sign-up dialog of src/components/AuthModal.tsx. Submitting
 * is split in two steps around the asynchronous call: `BeginSubmit` clears
 * the error, sets the busy flag and says which call is made;
 * `FinishSubmit` receives how the call ended, closes the dialog or shows
 * the error, and clears the busy flag.
 */
module AuthModal {
  import opened Options

  const AlreadyExistsCode: string := "user_already_exists"
  const BadCredentialsCode: string := "Invalid login credentials"
  const AlreadyExistsText: string := "An account with this email already exists. Please sign in instead."
  const BadCredentialsText: string := "Invalid email or password. Please try again."
  const FallbackText: string := "An error occurred. Please try again."

  /** The password input's minimum length. */
  const MinPassword: nat := 6

  /**
   * The text shown for a rejected call, given the error's `message` (None
   * when it has none): the two known messages are reworded, any other
   * non-empty message is shown as it is, and a missing or empty message
   * gets a generic text.
   */
  function ErrorText(message: Option<string>): (t: string)
    ensures t != ""
    ensures message == Some(AlreadyExistsCode) ==> t == AlreadyExistsText
    ensures message == Some(BadCredentialsCode) ==> t == BadCredentialsText
    ensures message.Some? && message.value !in {AlreadyExistsCode, BadCredentialsCode, ""} ==> t == message.value
    ensures message.None? || message == Some("") ==> t == FallbackText
  {
    if message == Some(AlreadyExistsCode) then AlreadyExistsText
    else if message == Some(BadCredentialsCode) then BadCredentialsText
    else if message.Some? && message.value != "" then message.value
    else FallbackText
  }

  /**
   * Away from the two known messages, a fixed text is shown exactly when the
   * error carries no message; any other message (one that is not itself a
   * fixed text) reaches the dialog unchanged.
   */
  lemma ErrorTextCases(message: Option<string>)
    requires message.Some? ==> message.value !in {AlreadyExistsCode, BadCredentialsCode, AlreadyExistsText, BadCredentialsText, FallbackText}
    ensures ErrorText(message) in {AlreadyExistsText, BadCredentialsText, FallbackText} <==> message.None? || message == Some("")
  {
  }

  /**
   * The length `minLength` and `maxLength` count: UTF-16 code units, so a
   * character outside the Basic Multilingual Plane counts twice.
   */
  function Utf16Length(s: string): (n: nat)
    ensures |s| <= n <= 2 * |s|
    ensures (forall i :: 0 <= i < |s| ==> s[i] as int <= 0xFFFF) ==> n == |s|
    ensures (forall i :: 0 <= i < |s| ==> s[i] as int > 0xFFFF) ==> n == 2 * |s|
  {
    if s == [] then 0 else (if s[0] as int > 0xFFFF then 2 else 1) + Utf16Length(s[1..])
  }

  /** The characters the username's `pattern` attribute names. */
  predicate IsUsernameChar(c: char) {
    ('a' <= c <= 'z') || ('A' <= c <= 'Z') || ('0' <= c <= '9') || c == '_' || c == '-'
  }

  /**
   * What the browser checks of the username: 3 to 30 code units. The pattern
   * `[a-zA-Z0-9_-]+` is compiled with the RegExp `v` flag, under which a bare
   * `-` in a class is a syntax error, so the browser applies no pattern at all.
   */
  predicate ValidUsername(u: string) {
    3 <= Utf16Length(u) <= 30
  }

  /** The username check the input's title describes: also only letters, digits, underscores and hyphens. */
  predicate PatternUsername(u: string) {
    ValidUsername(u) && forall i :: 0 <= i < |u| ==> IsUsernameChar(u[i])
  }

  /** Which call a submit makes. */
  datatype Call = SignUp(email: string, password: string, username: string) | SignIn(email: string, password: string)

  /** How the call ended: resolved, or rejected with an error whose `message` may be missing. */
  datatype Outcome = Succeeded | Failed(message: Option<string>)

  class Modal {
    var isSignUp: bool
    var email: string
    var password: string
    var username: string
    var error: string
    var loading: bool

    constructor ()
      ensures !isSignUp && email == "" && password == "" && username == "" && error == "" && !loading
    {
      isSignUp := false;
      email := "";
      password := "";
      username := "";
      error := "";
      loading := false;
    }

    /**
     * The inputs the browser checks before it lets the form submit: an email,
     * a password of at least six code units and, only when signing up, a
     * username of 3 to 30.
     */
    predicate Filled()
      reads this
    {
      email != "" && Utf16Length(password) >= MinPassword && (isSignUp ==> ValidUsername(username))
    }

    /** `Filled` with the username pattern applied as well. */
    predicate FilledPatterned()
      reads this
    {
      email != "" && Utf16Length(password) >= MinPassword && (isSignUp ==> PatternUsername(username))
    }

    /** "Sign Up" / "Sign In" below the form: the other mode, with every input and the error cleared. */
    method ToggleMode()
      modifies this
      ensures isSignUp == !old(isSignUp)
      ensures email == "" && password == "" && username == "" && error == ""
      ensures loading == old(loading)
    {
      isSignUp := !isSignUp;
      error := "";
      email := "";
      password := "";
      username := "";
    }

    method SetEmail(text: string)
      modifies this
      ensures email == text && password == old(password) && username == old(username)
      ensures isSignUp == old(isSignUp) && error == old(error) && loading == old(loading)
    {
      email := text;
    }

    method SetPassword(text: string)
      modifies this
      ensures password == text && email == old(email) && username == old(username)
      ensures isSignUp == old(isSignUp) && error == old(error) && loading == old(loading)
    {
      password := text;
    }

    method SetUsername(text: string)
      modifies this
      ensures username == text && email == old(email) && password == old(password)
      ensures isSignUp == old(isSignUp) && error == old(error) && loading == old(loading)
    {
      username := text;
    }

    /**
     * The first half of the submit handler. The submit button is disabled
     * while a call is pending and the browser refuses a form with a missing
     * or too short input; otherwise the old error is cleared, the dialog
     * becomes busy and the call for the current mode is made with the
     * current inputs.
     */
    method BeginSubmit() returns (call: Option<Call>)
      modifies this
      ensures call.None? <==> old(loading) || !old(Filled())
      ensures call.None? ==> error == old(error) && loading == old(loading)
      ensures call.Some? ==> loading && error == ""
      ensures call.Some? ==> call.value == if isSignUp then SignUp(email, password, username) else SignIn(email, password)
      ensures isSignUp == old(isSignUp) && email == old(email) && password == old(password) && username == old(username)
    {
      if loading || !Filled() {
        call := None;
      } else {
        error := "";
        loading := true;
        call := Some(if isSignUp then SignUp(email, password, username) else SignIn(email, password));
      }
    }

    /** `BeginSubmit` for a username input whose pattern takes effect. */
    method BeginSubmitPatterned() returns (call: Option<Call>)
      modifies this
      ensures call.None? <==> old(loading) || !old(FilledPatterned())
      ensures call.None? ==> error == old(error) && loading == old(loading)
      ensures call.Some? ==> loading && error == ""
      ensures call.Some? ==> call.value == if isSignUp then SignUp(email, password, username) else SignIn(email, password)
      ensures isSignUp == old(isSignUp) && email == old(email) && password == old(password) && username == old(username)
    {
      if loading || !FilledPatterned() {
        call := None;
      } else {
        error := "";
        loading := true;
        call := Some(if isSignUp then SignUp(email, password, username) else SignIn(email, password));
      }
    }

    /** The second half: success closes the dialog, a rejection shows its text; either way the dialog stops being busy. */
    method FinishSubmit(outcome: Outcome) returns (closed: bool)
      requires loading
      modifies this
      ensures closed == outcome.Succeeded?
      ensures !loading
      ensures error == if outcome.Succeeded? then old(error) else ErrorText(outcome.message)
      ensures isSignUp == old(isSignUp) && email == old(email) && password == old(password) && username == old(username)
    {
      match outcome {
        case Succeeded =>
          closed := true;
        case Failed(message) =>
          error := ErrorText(message);
          closed := false;
      }
      loading := false;
    }
  }

  /** A sign-in with a wrong password shows the friendly text, stays open and can be submitted again. */
  method WrongPassword(email: string, password: string) returns (shown: string, retry: Option<Call>)
    requires email != "" && Utf16Length(password) >= MinPassword
    ensures shown == BadCredentialsText
    ensures retry == Some(SignIn(email, password))
  {
    var m := new Modal();
    m.SetEmail(email);
    m.SetPassword(password);
    var call := m.BeginSubmit();
    var closed := m.FinishSubmit(Failed(Some(BadCredentialsCode)));
    shown := m.error;
    retry := m.BeginSubmit();
  }

  /** A second submit while the first call is pending makes no second call. */
  method DoubleSubmit(email: string, password: string) returns (first: Option<Call>, second: Option<Call>)
    requires email != "" && Utf16Length(password) >= MinPassword
    ensures first == Some(SignIn(email, password)) && second == None
  {
    var m := new Modal();
    m.SetEmail(email);
    m.SetPassword(password);
    first := m.BeginSubmit();
    second := m.BeginSubmit();
  }

  /**
   * Switching to sign-up after a failed sign-in clears the error and the
   * inputs, so the next submit needs the inputs typed again, this time with a
   * username.
   */
  method SwitchAfterFailure(email: string, password: string) returns (error: string, next: Option<Call>)
    requires email != "" && Utf16Length(password) >= MinPassword
    ensures error == "" && next == None
  {
    var m := new Modal();
    m.SetEmail(email);
    m.SetPassword(password);
    var call := m.BeginSubmit();
    var closed := m.FinishSubmit(Failed(None));
    m.ToggleMode();
    error := m.error;
    next := m.BeginSubmit();
  }

  /** A sign-up whose username holds spaces is submitted: no pattern is applied. */
  method SpacedUsernameAsWritten() returns (call: Option<Call>)
    ensures call == Some(SignUp("e@x.io", "secret", "a b c"))
  {
    var m := new Modal();
    m.ToggleMode();
    m.SetUsername("a b c");
    m.SetEmail("e@x.io");
    m.SetPassword("secret");
    call := m.BeginSubmit();
  }

  /** With the pattern in effect, the same sign-up is refused. */
  method SpacedUsername() returns (call: Option<Call>)
    ensures call == None
  {
    var m := new Modal();
    m.ToggleMode();
    m.SetUsername("a b c");
    m.SetEmail("e@x.io");
    m.SetPassword("secret");
    assert !IsUsernameChar(m.username[1]);
    call := m.BeginSubmitPatterned();
  }

  /** Three characters outside the Basic Multilingual Plane are six code units, a long enough password. */
  method AstralPassword() returns (call: Option<Call>)
    ensures call == Some(SignIn("e@x.io", "\U{1F600}\U{1F600}\U{1F600}"))
  {
    var m := new Modal();
    m.SetEmail("e@x.io");
    m.SetPassword("\U{1F600}\U{1F600}\U{1F600}");
    call := m.BeginSubmit();
  }
}
