/** What the SMTP client says and what it waits for (the smtp_prepare_ functions, the switch of
    smtp_process and the response parser in contrib/apps/smtp/smtp.c). */
module SmtpScript {
  import opened Basics
  import Base64
  import opened MailText

  /** Everything a session sends comes from here. */
  datatype Mail = Mail(ip: string, letter: Letter,
                       user: seq<Byte>, pass: seq<Byte>, plain: seq<Byte>)

  datatype State =
    | Null | Helo | AuthPlain | AuthLoginUname | AuthLoginPass | AuthLogin
    | MailFrom | Rcpt | Data | Body | Quit | Closed

  /** Which AUTH mechanism was chosen. */
  datatype Auth = NoAuth | Plain | Login

  // ---------------------------------------------------------------------------
  // Searching, as pbuf_memfind does

  predicate MatchAt(t: string, w: string, i: nat) { i + |w| <= |t| && t[i..i + |w|] == w }

  /** The first place at or after i where w stands in t. */
  function Find(t: string, w: string, i: nat): (r: Option<nat>)
    ensures r.Some? ==> i <= r.value && MatchAt(t, w, r.value)
    ensures r.Some? ==> forall k: nat | i <= k < r.value :: !MatchAt(t, w, k)
    ensures r.None? ==> forall k: nat | i <= k :: !MatchAt(t, w, k)
    decreases |t| + 1 - i
  {
    if i > |t| then None
    else if MatchAt(t, w, i) then Some(i)
    else Find(t, w, i + 1)
  }

  // ---------------------------------------------------------------------------
  // Reading a response

  function SkipSpace(t: string): string {
    if |t| > 0 && (t[0] == ' ' || 9 <= t[0] as int <= 13) then SkipSpace(t[1..]) else t
  }

  function Digits(t: string, value: nat): nat {
    if |t| > 0 && '0' <= t[0] <= '9' then Digits(t[1..], 10 * value + (t[0] - '0') as nat) else value
  }

  /** strtol with base 10 */
  function Strtol(t: string): int {
    var u := SkipSpace(t);
    if |u| > 0 && u[0] == '-' then 0 - Digits(u[1..], 0) as int
    else if |u| > 0 && u[0] == '+' then Digits(u[1..], 0)
    else Digits(u, 0)
  }

  /** smtp_is_response: the code at the start of the received text, or 0. */
  function ResponseCode(p: Option<string>): nat {
    if p.None? || |p.value| < 3 then 0
    else
      var num := Strtol(p.value[..3]);
      if num <= 0 || num >= 1000 then 0 else num
  }

  /** A line of a response from b on: at least four characters, then the first CRLF, at e. */
  predicate LineAt(t: string, b: nat, e: nat) {
    b + 4 <= e && MatchAt(t, CRLF, e) && forall k: nat | b + 4 <= k < e :: !MatchAt(t, CRLF, k)
  }

  /** t holds a response in these lines: the first begins at b and each other one after the CRLF
      of the one before; the fourth character is a dash in all lines but the last, where it is a
      space. */
  ghost predicate Lines(t: string, b: nat, ends: seq<nat>)
    decreases |ends|
  {
    |ends| > 0 && LineAt(t, b, ends[0]) &&
    if |ends| == 1 then t[b + 3] == ' ' else t[b + 3] == '-' && Lines(t, ends[0] + 2, ends[1..])
  }

  ghost predicate IsResponse(t: string, b: nat) { exists ends :: Lines(t, b, ends) }

  /** A line is looked at once its end is known: with no end there is no response, a space ends
      one, after a dash the next line decides, and anything else spoils it. */
  lemma ResponseAt(t: string, b: nat)
    ensures var e := Find(t, CRLF, b + 4);
      IsResponse(t, b) <==> e.Some? && (t[b + 3] == ' ' || (t[b + 3] == '-' && IsResponse(t, e.value + 2)))
  {
    var e := Find(t, CRLF, b + 4);
    if IsResponse(t, b) {
      var ends :| Lines(t, b, ends);
      assert MatchAt(t, CRLF, ends[0]);
      assert ends[0] == e.value;
      if |ends| > 1 { assert Lines(t, e.value + 2, ends[1..]); }
    }
    if e.Some? {
      assert LineAt(t, b, e.value);
      if t[b + 3] == ' ' { assert Lines(t, b, [e.value]); }
      if t[b + 3] == '-' && IsResponse(t, e.value + 2) {
        var rest :| Lines(t, e.value + 2, rest);
        assert ([e.value] + rest)[1..] == rest;
        assert Lines(t, b, [e.value] + rest);
      }
    }
  }

  /** smtp_is_response_finished */
  method IsResponseFinished(t: string) returns (ok: bool)
    ensures ok <==> IsResponse(t, 0)
  {
    var offset := 0;
    while true
      invariant IsResponse(t, 0) <==> IsResponse(t, offset)
      decreases |t| - offset
    {
      ResponseAt(t, offset);
      var crlf := Find(t, CRLF, offset + 4);
      if crlf.None? { return false; }
      var sp := t[offset + 3];
      if sp == '-' {
        offset := crlf.value + 2;
      } else {
        return sp == ' ';
      }
    }
  }

  /** A code, and all lines that belong to it. */
  ghost predicate Complete(t: string) { ResponseCode(Some(t)) != 0 && IsResponse(t, 0) }

  // ---------------------------------------------------------------------------
  // The commands

  function Ehlo(m: Mail): string { "EHLO [" + m.ip + "]\r\n" }
  function AuthPlainLine(m: Mail): string { "AUTH PLAIN " + Base64.Result(m.plain) + CRLF }
  const AUTH_LOGIN: string := "AUTH LOGIN\r\n"
  function UserLine(m: Mail): string { Base64.Result(m.user) + CRLF }
  function PassLine(m: Mail): string { Base64.Result(m.pass) + CRLF }
  function MailLine(m: Mail): string { "MAIL FROM: <" + m.letter.from + ">\r\n" }
  function RcptLine(m: Mail): string { "RCPT TO: <" + m.letter.to + ">\r\n" }
  const DATA_LINE: string := "DATA\r\n"
  const QUIT_LINE: string := "QUIT\r\n"

  /** "Username:" and "Password:" in base64. */
  const USERNAME_PROMPT: string := "VXNlcm5hbWU6"
  const PASSWORD_PROMPT: string := "UGFzc3dvcmQ6"

  /** The mechanism smtp_prepare_auth_or_mail picks from the answer to EHLO. */
  function Offered(t: string): Auth {
    var sp := Find(t, "AUTH ", 0);
    var auth := if sp.Some? then sp else Find(t, "AUTH=", 0);
    if auth.None? then NoAuth
    else
      var crlf := Find(t, CRLF, auth.value);
      if crlf.None? then NoAuth
      else
        var line := t[auth.value..crlf.value];
        var params := if |line| < 5 then "" else CString(line[5..]);
        if Find(params, "PLAIN", 0).Some? then Plain
        else if Find(params, "LOGIN", 0).Some? then Login
        else NoAuth
  }

  /** What the prompts stand for. */
  lemma UsernamePromptIs(s: seq<Byte>)
    requires s == [85, 115, 101, 114, 110, 97, 109, 101, 58]
    ensures USERNAME_PROMPT == Base64.Encode(s)
  {
    ThreeGroups(s);
    UsernameGroups();
    assert USERNAME_PROMPT == "VXNl" + "cm5h" + "bWU6";
  }

  lemma UsernameGroups()
    ensures Base64.Group(85, 115, 101) == "VXNl" && Base64.Group(114, 110, 97) == "cm5h"
    ensures Base64.Group(109, 101, 58) == "bWU6"
  {
  }

  lemma PasswordGroups()
    ensures Base64.Group(80, 97, 115) == "UGFz" && Base64.Group(115, 119, 111) == "c3dv"
    ensures Base64.Group(114, 100, 58) == "cmQ6"
  {
  }

  lemma PasswordPromptIs(s: seq<Byte>)
    requires s == [80, 97, 115, 115, 119, 111, 114, 100, 58]
    ensures PASSWORD_PROMPT == Base64.Encode(s)
  {
    ThreeGroups(s);
    PasswordGroups();
    assert PASSWORD_PROMPT == "UGFz" + "c3dv" + "cmQ6";
  }

  lemma ThreeGroups(s: seq<Byte>)
    requires |s| == 9
    ensures Base64.Encode(s) ==
            Base64.Group(s[0], s[1], s[2]) + Base64.Group(s[3], s[4], s[5]) + Base64.Group(s[6], s[7], s[8])
  {
    assert Base64.Encode(s[3..][3..][3..]) == "";
    assert Base64.Encode(s[3..][3..]) == Base64.Group(s[6], s[7], s[8]);
    assert Base64.Encode(s[3..]) == Base64.Group(s[3], s[4], s[5]) + Base64.Encode(s[3..][3..]);
  }

  /** The first "AUTH " of a reply, or else its first "AUTH=", stands at a. */
  ghost predicate KeywordAt(t: string, a: nat) {
    || (MatchAt(t, "AUTH ", a) && forall k: nat | k < a :: !MatchAt(t, "AUTH ", k))
    || ((forall k: nat :: !MatchAt(t, "AUTH ", k))
        && MatchAt(t, "AUTH=", a) && forall k: nat | k < a :: !MatchAt(t, "AUTH=", k))
  }

  /** The parameters are what follows the keyword up to the next CRLF. */
  ghost predicate ParamsAt(t: string, from: nat, to: nat) {
    && from >= 5 && KeywordAt(t, from - 5)
    && from - 5 <= to && MatchAt(t, CRLF, to) && forall k: nat | from - 5 <= k < to :: !MatchAt(t, CRLF, k)
  }

  /** w stands between these places, and no NUL before it. */
  ghost predicate StandsIn(t: string, w: string, from: nat, to: nat) {
    exists k: nat :: from <= k && k + |w| <= to && MatchAt(t, w, k) && '\0' !in t[from..k]
  }

  /** A reply to EHLO offers a mechanism by that name. */
  ghost predicate Offers(t: string, w: string) {
    exists from: nat, to: nat :: ParamsAt(t, from, to) && StandsIn(t, w, from, to)
  }

  /** The mechanism to use: PLAIN if it is offered, otherwise LOGIN if that is, otherwise none. */
  ghost predicate Chosen(t: string, a: Auth) {
    match a
    case Plain => Offers(t, "PLAIN")
    case Login => Offers(t, "LOGIN") && !Offers(t, "PLAIN")
    case NoAuth => !Offers(t, "LOGIN") && !Offers(t, "PLAIN")
  }

  lemma OnlyParams(t: string, from: nat, to: nat, from': nat, to': nat)
    requires ParamsAt(t, from, to) && ParamsAt(t, from', to')
    ensures from == from' && to == to'
  {
    assert MatchAt(t, "AUTH ", from - 5) || MatchAt(t, "AUTH=", from - 5);
    assert MatchAt(t, "AUTH ", from' - 5) || MatchAt(t, "AUTH=", from' - 5);
  }

  /** A search in the parameters read as a C string. */
  lemma FindInParams(t: string, w: string, from: nat, to: nat)
    requires from <= to <= |t| && '\0' !in w
    ensures Find(CString(t[from..to]), w, 0).Some? <==> StandsIn(t, w, from, to)
  {
    var p := CString(t[from..to]);
    CStringEnds(t[from..to]);
    if Find(p, w, 0).Some? { FoundStands(t, w, from, to, p, Find(p, w, 0).value); }
    if StandsIn(t, w, from, to) {
      var k: nat :| from <= k && k + |w| <= to && MatchAt(t, w, k) && '\0' !in t[from..k];
      StandsFound(t, w, from, to, p, k);
    }
  }

  lemma FoundStands(t: string, w: string, from: nat, to: nat, p: string, k: nat)
    requires from <= to <= |t| && p <= t[from..to] && '\0' !in p && MatchAt(p, w, k)
    ensures StandsIn(t, w, from, to)
  {
    assert forall i | 0 <= i < |p| :: p[i] == t[from..to][i] == t[from + i];
    assert t[from..from + k] == p[..k];
    assert t[from + k..from + k + |w|] == p[k..k + |w|];
    assert MatchAt(t, w, from + k);
  }

  lemma StandsFound(t: string, w: string, from: nat, to: nat, p: string, k: nat)
    requires from <= k && k + |w| <= to <= |t| && MatchAt(t, w, k) && '\0' !in t[from..k] && '\0' !in w
    requires p <= t[from..to] && (|p| < to - from ==> t[from + |p|] == '\0')
    ensures MatchAt(p, w, k - from)
  {
    forall i | from <= i < k ensures t[i] != '\0' { assert t[from..k][i - from] == t[i]; }
    forall i | k <= i < k + |w| ensures t[i] != '\0' { assert w[i - k] == t[i]; }
    assert forall i | 0 <= i < |p| :: p[i] == t[from..to][i] == t[from + i];
    assert p[k - from..k - from + |w|] == t[k..k + |w|];
  }

  /** smtp_prepare_auth_or_mail picks the mechanism to use. */
  lemma OfferedIsChosen(t: string)
    ensures Chosen(t, Offered(t))
  {
    var sp := Find(t, "AUTH ", 0);
    var auth := if sp.Some? then sp else Find(t, "AUTH=", 0);
    if auth.Some? && Find(t, CRLF, auth.value).Some? {
      ChosenFrom(t, auth.value, Find(t, CRLF, auth.value).value);
    } else {
      NothingOffered(t, "PLAIN");
      NothingOffered(t, "LOGIN");
    }
  }

  lemma NothingOffered(t: string, w: string)
    requires var sp := Find(t, "AUTH ", 0);
             var auth := if sp.Some? then sp else Find(t, "AUTH=", 0);
             auth.Some? ==> Find(t, CRLF, auth.value).None?
    ensures !Offers(t, w)
  {
  }

  lemma ChosenFrom(t: string, a: nat, to: nat)
    requires KeywordAt(t, a) && a <= to && MatchAt(t, CRLF, to) && forall k: nat | a <= k < to :: !MatchAt(t, CRLF, k)
    ensures to >= a + 5 && Offers(t, "PLAIN") == Find(CString(t[a..to][5..]), "PLAIN", 0).Some?
    ensures Offers(t, "LOGIN") == Find(CString(t[a..to][5..]), "LOGIN", 0).Some?
  {
    KeywordNoCrlf(t, a, to);
    assert ParamsAt(t, a + 5, to);
    assert t[a..to][5..] == t[a + 5..to];
    FindInParams(t, "PLAIN", a + 5, to);
    FindInParams(t, "LOGIN", a + 5, to);
    OffersHere(t, "PLAIN", a + 5, to);
    OffersHere(t, "LOGIN", a + 5, to);
  }

  lemma KeywordNoCrlf(t: string, a: nat, to: nat)
    requires MatchAt(t, "AUTH ", a) || MatchAt(t, "AUTH=", a)
    requires a <= to && MatchAt(t, CRLF, to)
    ensures to >= a + 5
  {
    assert t[to] == '\r';
    assert forall k | a <= k < a + 5 :: t[k] == t[a..a + 5][k - a];
  }

  lemma OffersHere(t: string, w: string, from: nat, to: nat)
    requires ParamsAt(t, from, to)
    ensures Offers(t, w) <==> StandsIn(t, w, from, to)
  {
    if Offers(t, w) {
      var f: nat, e: nat :| ParamsAt(t, f, e) && StandsIn(t, w, f, e);
      OnlyParams(t, from, to, f, e);
    }
  }

  datatype Answer = Answer(next: State, tx: string)

  /** The switch of smtp_process: what a complete response with this code makes the client send.
      An unexpected response leaves the state as it is. */
  function Reply(m: Mail, st: State, code: nat, t: string): Answer {
    match st
    case Null => if code == 220 then Answer(Helo, Ehlo(m)) else Answer(st, "")
    case Helo =>
      if code == 250 then
        match Offered(t)
        case Plain => Answer(AuthPlain, AuthPlainLine(m))
        case Login => Answer(AuthLoginUname, AUTH_LOGIN)
        case NoAuth => Answer(MailFrom, MailLine(m))
      else Answer(st, "")
    case AuthLogin => if code == 235 then Answer(MailFrom, MailLine(m)) else Answer(st, "")
    case AuthPlain => if code == 235 then Answer(MailFrom, MailLine(m)) else Answer(st, "")
    case AuthLoginUname =>
      if code == 334 && Find(t, USERNAME_PROMPT, 0).Some? then Answer(AuthLoginPass, UserLine(m)) else Answer(st, "")
    case AuthLoginPass =>
      if code == 334 && Find(t, PASSWORD_PROMPT, 0).Some? then Answer(AuthLogin, PassLine(m)) else Answer(st, "")
    case MailFrom => if code == 250 then Answer(Rcpt, RcptLine(m)) else Answer(st, "")
    case Rcpt => if code == 250 then Answer(Data, DATA_LINE) else Answer(st, "")
    case Data => if code == 354 then Answer(Body, Header(m.letter)) else Answer(st, "")
    case Body => Answer(st, "")
    case Quit => if code == 250 then Answer(Closed, QUIT_LINE) else Answer(st, "")
    case Closed => Answer(st, "")
  }

  /** Every answer says something. */
  lemma ReplySpeaks(m: Mail, st: State, code: nat, t: string)
    ensures Reply(m, st, code, t).next != st ==> |Reply(m, st, code, t).tx| > 0
  {
  }

  // ---------------------------------------------------------------------------
  // The dialogue a server should see

  /** A piece of the dialogue and the reply that must come before it (0: none). */
  datatype Line = Line(code: nat, text: string)

  function AuthLength(a: Auth): nat { match a case NoAuth => 0 case Plain => 1 case Login => 3 }

  /** EHLO, perhaps AUTH, MAIL, RCPT, DATA, header, body, terminator, QUIT. */
  function LineNo(m: Mail, a: Auth, i: nat): Line {
    if i == 0 then Line(220, Ehlo(m))
    else if i <= AuthLength(a) then AuthLine(m, a, i)
    else
      match i - AuthLength(a)
      case 1 => Line(if a.NoAuth? then 250 else 235, MailLine(m))
      case 2 => Line(250, RcptLine(m))
      case 3 => Line(250, DATA_LINE)
      case 4 => Line(354, Header(m.letter))
      case 5 => Line(0, m.letter.body)
      case 6 => Line(0, END_OF_DATA)
      case _ => Line(250, QUIT_LINE)
  }

  function AuthLine(m: Mail, a: Auth, i: nat): Line {
    if a.Plain? then Line(250, AuthPlainLine(m))
    else if i == 1 then Line(250, AUTH_LOGIN)
    else Line(334, if i == 2 then UserLine(m) else PassLine(m))
  }

  function Script(m: Mail, a: Auth): seq<Line> { seq(8 + AuthLength(a), i requires 0 <= i => LineNo(m, a, i)) }

  function Text(lines: seq<Line>): string {
    if |lines| == 0 then "" else Text(lines[..|lines| - 1]) + lines[|lines| - 1].text
  }

  /** The reply a line answers, as a stretch of the text received. */
  datatype Cue = Cue(from: nat, to: nat)

  /** The reply before line i also says what the line takes from it: which mechanism the server
      offers, or that it asks for the user name or the password. */
  ghost predicate Suits(a: Auth, i: nat, t: string) {
    && (i == 1 ==> Chosen(t, a))
    && (a.Login? && i == 2 ==> Find(t, USERNAME_PROMPT, 0).Some?)
    && (a.Login? && i == 3 ==> Find(t, PASSWORD_PROMPT, 0).Some?)
  }

  /** Line i waits for nothing, or this stretch is a complete reply with the code it waits for. */
  ghost predicate CueFor(script: seq<Line>, a: Auth, i: nat, heard: string, c: Cue)
    requires i < |script|
  {
    && c.from <= c.to <= |heard|
    && (script[i].code != 0 ==>
          && Complete(heard[c.from..c.to]) && ResponseCode(Some(heard[c.from..c.to])) == script[i].code
          && Suits(a, i, heard[c.from..c.to]))
  }

  ghost predicate CueAt(script: seq<Line>, a: Auth, heard: string, cues: seq<Cue>, i: nat) {
    i < |script| && i < |cues| && CueFor(script, a, i, heard, cues[i])
  }

  /** No two lines answer the same text. */
  ghost predicate Ordered(cues: seq<Cue>) {
    forall i: nat | i + 1 < |cues| :: Apart(cues, i)
  }

  ghost predicate Apart(cues: seq<Cue>, i: nat)
    requires i + 1 < |cues|
  {
    cues[i].to <= cues[i + 1].from
  }

  /** How many lines are complete in a state. */
  function Index(a: Auth, st: State): nat {
    match st
    case Null => 0
    case Helo => 1
    case AuthPlain => 2
    case AuthLoginUname => 2
    case AuthLoginPass => 3
    case AuthLogin => 4
    case MailFrom => 2 + AuthLength(a)
    case Rcpt => 3 + AuthLength(a)
    case Data => 4 + AuthLength(a)
    case Body => 5 + AuthLength(a)
    case Quit => 7 + AuthLength(a)
    case Closed => 8 + AuthLength(a)
  }

  predicate Consistent(a: Auth, st: State) {
    && (st.AuthPlain? ==> a.Plain?)
    && (st.AuthLoginUname? || st.AuthLoginPass? || st.AuthLogin? ==> a.Login?)
  }

  lemma ScriptLength(m: Mail, a: Auth)
    ensures |Script(m, a)| == 8 + AuthLength(a)
  {
  }

  /** The lines around the body. */
  lemma ScriptEnd(m: Mail, a: Auth)
    ensures var s, k := Script(m, a), 5 + AuthLength(a);
      && |s| == k + 3 && s[k - 1] == Line(354, Header(m.letter)) && s[k] == Line(0, m.letter.body)
      && s[k + 1] == Line(0, END_OF_DATA) && s[k + 2] == Line(250, QUIT_LINE)
  {
  }

  lemma NextText(script: seq<Line>, k: nat)
    requires k < |script|
    ensures Text(script[..k + 1]) == Text(script[..k]) + script[k].text
  {
    assert script[..k + 1][..k] == script[..k];
  }

  lemma {:induction false} TextGrows(script: seq<Line>, j: nat, k: nat)
    requires j <= k <= |script|
    ensures Text(script[..j]) <= Text(script[..k])
  {
    if j < k {
      TextGrows(script, j, k - 1);
      NextText(script, k - 1);
    }
  }

  /** The choice of mechanism does not show before the second line. */
  lemma SameStart(m: Mail, a: Auth, b: Auth, k: nat)
    requires k <= 1
    ensures Script(m, a)[..k] == Script(m, b)[..k] && Script(m, a)[0] == Script(m, b)[0]
  {
    assert Script(m, a)[0] == Script(m, b)[0];
  }

  /** The mechanism once a reply led from st to next. */
  function AuthAfter(a: Auth, st: State, next: State): Auth {
    if !st.Helo? then a
    else if next.AuthPlain? then Plain
    else if next.AuthLoginUname? then Login
    else NoAuth
  }

  /** Whatever the client answers to a response is the next line of the script, and the response
      carried the code that line waits for. */
  lemma ReplyIsNextLine(m: Mail, a: Auth, st: State, code: nat, t: string)
    requires Consistent(a, st) && Reply(m, st, code, t).next != st
    ensures var r := Reply(m, st, code, t);
            var b := AuthAfter(a, st, r.next);
      && Consistent(b, r.next) && Index(b, r.next) == Index(a, st) + 1 == Index(b, st) + 1
      && Index(a, st) < |Script(m, b)|
      && Script(m, b)[Index(a, st)] == Line(code, r.tx)
      && code != 0 && !st.Body? && !st.Closed?
  {
    ScriptLength(m, AuthAfter(a, st, Reply(m, st, code, t).next));
  }

  /** And the response suits it. */
  lemma ReplySuits(m: Mail, a: Auth, st: State, code: nat, t: string)
    requires Consistent(a, st) && Reply(m, st, code, t).next != st
    ensures Suits(AuthAfter(a, st, Reply(m, st, code, t).next), Index(a, st), t)
  {
    if st.Helo? {
      assert AuthAfter(a, st, Reply(m, st, code, t).next) == Offered(t);
      OfferedIsChosen(t);
    }
  }

  /** The dialogue without authentication, to the letter. */
  lemma ScriptReads(m: Mail)
    ensures var l := m.letter; Script(m, NoAuth) == [
      Line(220, "EHLO [" + m.ip + "]\r\n"),
      Line(250, "MAIL FROM: <" + l.from + ">\r\n"), Line(250, "RCPT TO: <" + l.to + ">\r\n"),
      Line(250, "DATA\r\n"),
      Line(354, "From: <" + l.from + ">\r\nTo: <" + l.to + ">\r\nSubject: " + l.subject + "\r\n\r\n"),
      Line(0, l.body), Line(0, "\r\n.\r\n"),
      Line(250, "QUIT\r\n")]
  {
  }

  /** And how it begins with authentication; after that it goes on as without. */
  lemma AuthScriptReads(m: Mail)
    ensures Script(m, Plain)[..2] == [Line(220, "EHLO [" + m.ip + "]\r\n"),
                                      Line(250, "AUTH PLAIN " + Base64.Result(m.plain) + "\r\n")]
    ensures Script(m, Login)[..4] == [Line(220, "EHLO [" + m.ip + "]\r\n"), Line(250, "AUTH LOGIN\r\n"),
                                      Line(334, Base64.Result(m.user) + "\r\n"),
                                      Line(334, Base64.Result(m.pass) + "\r\n")]
    ensures forall a: Auth | !a.NoAuth? ::
      && Script(m, a)[AuthLength(a) + 1] == Line(235, "MAIL FROM: <" + m.letter.from + ">\r\n")
      && Script(m, a)[AuthLength(a) + 2..] == Script(m, NoAuth)[2..]
  {
    forall a: Auth | !a.NoAuth? ensures Script(m, a)[AuthLength(a) + 2..] == Script(m, NoAuth)[2..] {
      forall i: nat | i < 6 ensures Script(m, a)[AuthLength(a) + 2..][i] == Script(m, NoAuth)[2..][i] { }
    }
  }

  /** Three digits are read as a number. */
  lemma CodeRead(t: string)
    requires |t| >= 3 && forall k: nat | k < 3 :: '0' <= t[k] <= '9'
    ensures ResponseCode(Some(t)) == 100 * (t[0] - '0') as nat + 10 * (t[1] - '0') as nat + (t[2] - '0') as nat
  {
    var u := t[..3];
    assert SkipSpace(u) == u;
    assert u[1..] == [t[1], t[2]] && [t[1], t[2]][1..] == [t[2]] && [t[2]][1..] == "";
    var a, b, c := (t[0] - '0') as nat, (t[1] - '0') as nat, (t[2] - '0') as nat;
    assert Digits([t[2]], 10 * a + b) == 10 * (10 * a + b) + c;
    assert Digits([t[1], t[2]], a) == Digits([t[2]], 10 * a + b);
    assert Digits(u, 0) == Digits([t[1], t[2]], a);
  }

  /** Between DATA and QUIT the script is the content of the mail. */
  lemma DataSection(m: Mail, a: Auth)
    ensures |Script(m, a)| == 8 + AuthLength(a)
    ensures Text(Script(m, a)) == Text(Script(m, a)[..4 + AuthLength(a)]) + Content(m.letter) + QUIT_LINE
  {
    ScriptEnd(m, a);
    var s, k := Script(m, a), 4 + AuthLength(a);
    NextText(s, k); NextText(s, k + 1); NextText(s, k + 2); NextText(s, k + 3);
    assert s[..k + 4] == s;
    Regroup(Text(s[..k]), Header(m.letter), m.letter.body, END_OF_DATA, QUIT_LINE);
  }

  lemma Regroup(t: string, a: string, b: string, c: string, d: string)
    ensures t + a + b + c + d == t + (a + b + c) + d
  {
  }

  /** What follows the DATA command in what was written so far. */
  ghost function AfterData(m: Mail, a: Auth, written: string): string
    requires |Text(Script(m, a)[..4 + AuthLength(a)])| <= |written| && |Script(m, a)| == 8 + AuthLength(a)
  {
    written[|Text(Script(m, a)[..4 + AuthLength(a)])|..]
  }

  /** However much of the script was written, and in whatever pieces: for an accepted mail whose
      body is not a single dot, the end of mail data stands after the DATA command only where the
      client puts it. */
  lemma WrittenEndsOnce(m: Mail, a: Auth, written: string, i: int)
    requires Accepted(m.letter) && m.letter.body != "." && written <= Text(Script(m, a))
    requires |Script(m, a)| == 8 + AuthLength(a) && |Text(Script(m, a)[..4 + AuthLength(a)])| <= |written|
    requires EndsAt(AfterData(m, a, written), i)
    ensures i == |Content(m.letter)| - 5
  {
    DataSection(m, a);
    UniqueEndIff(m.letter);
    var pre, c := Text(Script(m, a)[..4 + AuthLength(a)]), Content(m.letter);
    assert pre + c + QUIT_LINE == pre + (c + QUIT_LINE);
    assert AfterData(m, a, written) <= c + QUIT_LINE;
    assert EndsAt(c + QUIT_LINE, i);
    BeforeQuit(c, i);
  }

  /** QUIT adds no end of mail data to text that ends in one. */
  lemma BeforeQuit(c: string, i: int)
    requires EndsAt(c, |c| - 5) && EndsAt(c + QUIT_LINE, i)
    ensures EndsAt(c, i)
  {
    var t := c + QUIT_LINE;
    assert forall k | 0 <= k < |c| :: t[k] == c[k];
    assert t[|c|] == 'Q' && t[|c| + 1] == 'U' && t[|c| + 2] == 'I' && t[|c| + 3] == 'T';
  }
}
