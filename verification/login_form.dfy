/**
 * The login form (src/components/LoginForm.tsx): the `canSubmit` gate over
 * the trimmed email and the raw password, and the `onSubmit` sequence over
 * the `loading` flag.  Sign-in, session retrieval, alerts and the router
 * are outside this model: their answers are inputs of `OnSubmit`, and the
 * calls made to them are kept in logs.
 */
module LoginForm {

  // ---------------------------------------------------------------------
  // String.prototype.trim

  /** The characters `trim` removes: ECMAScript's WhiteSpace (tab, vertical
      tab, form feed, the byte order mark and every space separator) and
      LineTerminator (line feed, carriage return, line and paragraph
      separators). */
  predicate IsWhitespace(c: char) {
    || c == '\t' || c == '\n' || c == '\U{B}' || c == '\U{C}' || c == '\r'
    || c == ' ' || c == '\U{A0}' || c == '\U{1680}'
    || ('\U{2000}' <= c <= '\U{200A}')
    || c == '\U{2028}' || c == '\U{2029}' || c == '\U{202F}' || c == '\U{205F}'
    || c == '\U{3000}' || c == '\U{FEFF}'
  }

  predicate AllWhitespace(s: string) {
    forall i :: 0 <= i < |s| ==> IsWhitespace(s[i])
  }

  lemma WhitespaceAround(a: string, b: string)
    requires AllWhitespace(a) && AllWhitespace(b)
    ensures AllWhitespace(a + b)
  {
    forall i | 0 <= i < |a + b| ensures IsWhitespace((a + b)[i]) {
      if i >= |a| {
        assert (a + b)[i] == b[i - |a|];
      }
    }
  }

  /** A whitespace character in front of a text whose leading whitespace
      is cut to leave `r` is cut as well. */
  lemma LeadingStep(s: string, r: string)
    requires s != [] && IsWhitespace(s[0])
    requires |r| <= |s| - 1 && r == s[1..][|s| - 1 - |r|..] && AllWhitespace(s[1..][..|s| - 1 - |r|])
    ensures r == s[|s| - |r|..] && AllWhitespace(s[..|s| - |r|])
  {
    assert s[..|s| - |r|] == [s[0]] + s[1..][..|s| - 1 - |r|];
    assert s[1..][|s| - 1 - |r|..] == s[|s| - |r|..];
    WhitespaceAround([s[0]], s[1..][..|s| - 1 - |r|]);
  }

  /** A whitespace character behind a text whose trailing whitespace is cut
      to leave `r` is cut as well. */
  lemma TrailingStep(s: string, r: string)
    requires s != [] && IsWhitespace(s[|s| - 1])
    requires |r| <= |s| - 1 && r == s[..|s| - 1][..|r|] && AllWhitespace(s[..|s| - 1][|r|..])
    ensures r == s[..|r|] && AllWhitespace(s[|r|..])
  {
    assert s[|r|..] == s[..|s| - 1][|r|..] + [s[|s| - 1]];
    assert s[..|s| - 1][..|r|] == s[..|r|];
    WhitespaceAround(s[..|s| - 1][|r|..], [s[|s| - 1]]);
  }

  /** The leading half of `trim`: what is left after the leading whitespace. */
  function TrimStart(s: string): (r: string)
    ensures |r| <= |s| && r == s[|s| - |r|..]
    ensures AllWhitespace(s[..|s| - |r|])
    ensures r == [] || !IsWhitespace(r[0])
  {
    if s != [] && IsWhitespace(s[0]) then
      var r := TrimStart(s[1..]);
      LeadingStep(s, r);
      r
    else s
  }

  /** The trailing half of `trim`: what is left before the trailing whitespace. */
  function TrimEnd(s: string): (r: string)
    ensures |r| <= |s| && r == s[..|r|]
    ensures AllWhitespace(s[|r|..])
    ensures r == [] || !IsWhitespace(r[|r| - 1])
  {
    if s != [] && IsWhitespace(s[|s| - 1]) then
      var r := TrimEnd(s[..|s| - 1]);
      TrailingStep(s, r);
      r
    else s
  }

  /** `s.trim()`: the text between the first and the last non-whitespace
      character; empty exactly when `s` is blank. */
  function Trim(s: string): (r: string)
    // the input with a whitespace prefix and a whitespace suffix cut off
    ensures exists k :: PaddingCut(s, k, r)
    ensures r == [] || (!IsWhitespace(r[0]) && !IsWhitespace(r[|r| - 1]))
    ensures r == [] <==> AllWhitespace(s)
  {
    TrimCutsPadding(s);
    TrimOfBlank(s);
    TrimEnd(TrimStart(s))
  }

  /** `r` is `s` with its first `k` characters and everything after
      `k + |r|` cut off, all of which is whitespace. */
  predicate PaddingCut(s: string, k: int, r: string) {
    && 0 <= k <= |s| - |r| && r == s[k..k + |r|]
    && AllWhitespace(s[..k]) && AllWhitespace(s[k + |r|..])
  }

  /** The two halves of `trim` together cut whitespace padding off the input. */
  lemma {:induction false} TrimCutsPadding(s: string)
    ensures PaddingCut(s, |s| - |TrimStart(s)|, TrimEnd(TrimStart(s)))
  {
    PaddingOfParts(s, TrimStart(s), TrimEnd(TrimStart(s)));
  }

  /** Cutting whitespace off the front of `s`, giving `t`, and then off the
      back of `t`, giving `r`, cuts padding off `s`. */
  lemma PaddingOfParts(s: string, t: string, r: string)
    requires |t| <= |s| && t == s[|s| - |t|..] && AllWhitespace(s[..|s| - |t|])
    requires |r| <= |t| && r == t[..|r|] && AllWhitespace(t[|r|..])
    ensures PaddingCut(s, |s| - |t|, r)
  {
    var k := |s| - |t|;
    assert s[k..][..|r|] == s[k..k + |r|];
    assert s[k..][|r|..] == s[k + |r|..];
  }

  lemma {:induction false} TrimStartOfBlank(s: string)
    requires AllWhitespace(s)
    ensures TrimStart(s) == []
  {
    if s != [] {
      assert AllWhitespace(s[1..]) by {
        forall i | 0 <= i < |s| - 1 ensures IsWhitespace(s[1..][i]) {
          assert s[1..][i] == s[i + 1];
        }
      }
      TrimStartOfBlank(s[1..]);
    }
  }

  /** `trim` leaves nothing exactly of a blank input. */
  lemma TrimOfBlank(s: string)
    ensures TrimEnd(TrimStart(s)) == [] <==> AllWhitespace(s)
  {
    var t := TrimStart(s);
    var k := |s| - |t|;
    if TrimEnd(t) == [] {
      assert t == [];
      assert s[..k] == s;
    }
    if AllWhitespace(s) {
      TrimStartOfBlank(s);
    }
  }

  lemma {:induction false} TrimStartSkipsWhitespace(pre: string, s: string)
    requires AllWhitespace(pre)
    ensures TrimStart(pre + s) == TrimStart(s)
    decreases |pre|
  {
    if pre != [] {
      assert (pre + s)[1..] == pre[1..] + s;
      TrimStartSkipsWhitespace(pre[1..], s);
    } else {
      assert pre + s == s;
    }
  }

  lemma {:induction false} TrimStartKeepsTail(s: string, post: string)
    requires !AllWhitespace(s)
    ensures TrimStart(s + post) == TrimStart(s) + post
    decreases |s|
  {
    if IsWhitespace(s[0]) {
      assert (s + post)[1..] == s[1..] + post;
      assert !AllWhitespace(s[1..]) by {
        var i :| 0 <= i < |s| && !IsWhitespace(s[i]);
        assert s[1..][i - 1] == s[i];
      }
      TrimStartKeepsTail(s[1..], post);
    }
  }

  lemma {:induction false} TrimEndSkipsWhitespace(s: string, post: string)
    requires AllWhitespace(post)
    ensures TrimEnd(s + post) == TrimEnd(s)
    decreases |post|
  {
    if post != [] {
      assert (s + post)[..|s + post| - 1] == s + post[..|post| - 1];
      TrimEndSkipsWhitespace(s, post[..|post| - 1]);
    } else {
      assert s + post == s;
    }
  }

  /** Whitespace around a text does not change what `trim` returns. */
  lemma TrimIgnoresPadding(pre: string, s: string, post: string)
    requires AllWhitespace(pre) && AllWhitespace(post)
    ensures Trim(pre + s + post) == Trim(s)
  {
    assert pre + s + post == pre + (s + post);
    TrimStartSkipsWhitespace(pre, s + post);
    if AllWhitespace(s) {
      assert AllWhitespace(s + post);
    } else {
      TrimStartKeepsTail(s, post);
      TrimEndSkipsWhitespace(TrimStart(s), post);
    }
  }

  /** Trimming a trimmed text changes nothing. */
  lemma TrimIdempotent(s: string)
    ensures Trim(Trim(s)) == Trim(s)
  {
  }

  // ---------------------------------------------------------------------
  // The submit gate

  /** The JavaScript `length` of a string: the number of UTF-16 code units,
      so a character beyond the Basic Multilingual Plane counts twice. */
  function Utf16Length(s: string): (n: nat)
    ensures |s| <= n <= 2 * |s|
    // one unit per character exactly when no character lies beyond U+FFFF
    ensures n == |s| <==> InBmp(s)
  {
    if s == [] then 0
    else
      var n := (if s[0] as int > 0xFFFF then 2 else 1) + Utf16Length(s[1..]);
      assert InBmp(s) <==> s[0] as int <= 0xFFFF && InBmp(s[1..]) by {
        assert forall i :: 0 < i < |s| ==> s[i] == s[1..][i - 1];
      }
      n
  }

  /** Every character of `s` fits in a single UTF-16 code unit. */
  predicate InBmp(s: string) {
    forall i :: 0 <= i < |s| ==> s[i] as int <= 0xFFFF
  }

  /** The length of a concatenation is the sum of the lengths, and a single
      character counts two units exactly when it lies beyond U+FFFF. */
  lemma {:induction false} Utf16LengthConcat(a: string, b: string)
    ensures Utf16Length(a + b) == Utf16Length(a) + Utf16Length(b)
    ensures a != [] ==> Utf16Length(a[..1]) == if a[0] as int > 0xFFFF then 2 else 1
    decreases |a|
  {
    if a != [] {
      assert (a + b)[1..] == a[1..] + b;
      assert a[..1][1..] == [];
      Utf16LengthConcat(a[1..], b);
    } else {
      assert a + b == b;
    }
  }

  /** `canSubmit`: the trimmed email is longer than three UTF-16 code units
      and the password, which is not trimmed, is not empty. */
  predicate CanSubmit(email: string, password: string)
    // the gate, with both lengths in UTF-16 code units
    ensures CanSubmit(email, password) <==> Utf16Length(Trim(email)) > 3 && password != []
    ensures CanSubmit(email, password) ==> !AllWhitespace(email) && |Trim(email)| >= 2 && password != []
    // enough characters always pass
    ensures |Trim(email)| > 3 && password != [] ==> CanSubmit(email, password)
    // without characters beyond U+FFFF the code units are the characters
    ensures InBmp(Trim(email)) ==>
              (CanSubmit(email, password) <==> |Trim(email)| > 3 && password != [])
  {
    Utf16Length(Trim(email)) > 3 && Utf16Length(password) > 0
  }

  /** The length test counts UTF-16 code units: three characters, one of
      them an emoji, already pass it. */
  lemma AstralCharacterCountsTwice()
    ensures |"a\U{1F600}b"| == 3 && Utf16Length("a\U{1F600}b") == 4
    ensures CanSubmit("a\U{1F600}b", "p")
  {
    var e := "a\U{1F600}b";
    assert TrimStart(e) == e;
    assert TrimEnd(e) == e;
    assert Utf16Length("b") == 1;
    assert e[1..][1..] == "b";
    assert Utf16Length(e[1..]) == 3;
  }

  /** The gate looks at the email without its surrounding whitespace, but a
      password of spaces alone is accepted; a blank email never passes. */
  lemma CanSubmitSeesTrimmedEmail(pre: string, email: string, post: string, password: string)
    requires AllWhitespace(pre) && AllWhitespace(post)
    ensures CanSubmit(pre + email + post, password) == CanSubmit(email, password)
    ensures AllWhitespace(email) ==> !CanSubmit(email, password)
    ensures |Trim(email)| > 3 && AllWhitespace(password) && password != [] ==> CanSubmit(email, password)
    ensures |Trim(email)| <= 1 ==> !CanSubmit(email, password)
  {
    TrimIgnoresPadding(pre, email, post);
  }

  // ---------------------------------------------------------------------
  // The submit sequence

  /** How the `signInWithPassword` call settles: an answer carrying an
      error, an answer without one, or a rejected promise. */
  datatype SignInResult = SignInError(message: string) | SignedIn | SignInThrew

  /** How the `getSession` call settles: a session, none, or a rejected
      promise. */
  datatype SessionResult = ActiveSession | NoSession | SessionThrew

  /** A `signInWithPassword` call, with the `loading` flag at the moment it
      was made. */
  datatype SignInCall = SignInCall(email: string, password: string, loadingDuringCall: bool)

  /** A call to the router. */
  datatype RouterCall = Replace(route: string) | Refresh

  /** The alert shown when sign-in succeeded but no session is active. */
  const NoSessionAlert: string := "Brak aktywnej sesji po logowaniu. Sprawdź konfigurację supabaseClient."

  /** The route a successful login lands on. */
  const HomeRoute: string := "/"

  class Form {
    var email: string
    var password: string
    var loading: bool
    /** Calls made to the outside, oldest first. */
    var signIns: seq<SignInCall>
    var alerts: seq<string>
    var routerCalls: seq<RouterCall>

    constructor ()
      ensures email == "" && password == "" && !loading
      ensures signIns == [] && alerts == [] && routerCalls == []
    {
      email, password, loading := "", "", false;
      signIns, alerts, routerCalls := [], [], [];
    }

    /** Typing in the email field. */
    method SetEmail(value: string)
      modifies this
      ensures email == value
      ensures password == old(password) && loading == old(loading)
      ensures signIns == old(signIns) && alerts == old(alerts) && routerCalls == old(routerCalls)
    {
      email := value;
    }

    /** Typing in the password field. */
    method SetPassword(value: string)
      modifies this
      ensures password == value
      ensures email == old(email) && loading == old(loading)
      ensures signIns == old(signIns) && alerts == old(alerts) && routerCalls == old(routerCalls)
    {
      password := value;
    }

    /** `onSubmit`: `signIn` is how `signInWithPassword` settles and
        `session` how the `getSession()` that follows a sign-in settles.  A
        blocked submit does nothing; otherwise `loading` is raised before the
        sign-in call and lowered again on every way out (the `finally`), a
        rejected promise ends the attempt with no alert and no navigation and
        is passed on to the caller (`rejected`), and only a sign-in followed
        by an active session navigates home. */
    method OnSubmit(signIn: SignInResult, session: SessionResult) returns (rejected: bool)
      modifies this
      ensures email == old(email) && password == old(password)
      // the guard: no sign-in attempt, nothing changes
      ensures !CanSubmit(old(email), old(password)) || old(loading) ==>
                !rejected && loading == old(loading) && signIns == old(signIns)
                && alerts == old(alerts) && routerCalls == old(routerCalls)
      // past the guard: one attempt, made while loading, and loading is off at the end
      ensures CanSubmit(old(email), old(password)) && !old(loading) ==>
                !loading && signIns == old(signIns) + [SignInCall(email, password, true)]
      // the error propagates exactly when one of the two calls rejects
      ensures rejected <==>
                CanSubmit(old(email), old(password)) && !old(loading)
                && (signIn.SignInThrew? || (signIn.SignedIn? && session.SessionThrew?))
      ensures CanSubmit(old(email), old(password)) && !old(loading) ==>
                alerts == old(alerts) + (match signIn
                                         case SignInError(message) => [message]
                                         case SignInThrew => []
                                         case SignedIn => if session.NoSession? then [NoSessionAlert] else [])
      // navigation happens only after a sign-in with an active session
      ensures routerCalls == old(routerCalls) +
                if CanSubmit(old(email), old(password)) && !old(loading) && signIn.SignedIn? && session.ActiveSession?
                then [Replace(HomeRoute), Refresh] else []
    {
      rejected := false;
      var canSubmit := CanSubmit(email, password);
      if !canSubmit || loading {
        return;
      }
      rejected := Attempt(signIn, session);
    }

    /** The `try`/`finally` of `onSubmit`, past its guard. */
    method Attempt(signIn: SignInResult, session: SessionResult) returns (rejected: bool)
      modifies this
      ensures email == old(email) && password == old(password)
      ensures !loading && signIns == old(signIns) + [SignInCall(email, password, true)]
      ensures rejected <==> signIn.SignInThrew? || (signIn.SignedIn? && session.SessionThrew?)
      ensures alerts == old(alerts) + (match signIn
                                       case SignInError(message) => [message]
                                       case SignInThrew => []
                                       case SignedIn => if session.NoSession? then [NoSessionAlert] else [])
      ensures routerCalls == old(routerCalls) +
                if signIn.SignedIn? && session.ActiveSession? then [Replace(HomeRoute), Refresh] else []
    {
      rejected := false;
      loading := true;
      signIns := signIns + [SignInCall(email, password, loading)];
      match signIn {
        case SignInThrew =>
          rejected := true;
        case SignInError(message) =>
          alerts := alerts + [message];
        case SignedIn =>
          match session {
            case SessionThrew =>
              rejected := true;
            case NoSession =>
              alerts := alerts + [NoSessionAlert];
            case ActiveSession =>
              routerCalls := routerCalls + [Replace(HomeRoute), Refresh];
          }
      }
      loading := false;
    }
  }
}
