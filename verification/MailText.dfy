/** The text of a mail as the SMTP client checks and sends it (smtp_verify and
    smtp_prepare_header in contrib/apps/smtp/smtp.c), and where a server sees its end. */
module MailText {

  const CRLF: string := "\r\n"

  /** SMTP_CMD_BODY_FINISHED */
  const END_OF_DATA: string := "\r\n.\r\n"

  // ---------------------------------------------------------------------------
  // Checking

  /** What is allowed at position i: seven bits, no LF without a CR before it, and CR only where
      line breaks are allowed and never twice in a row. */
  predicate AllowedAt(data: string, linebreaks: bool, i: nat)
    requires i < |data|
  {
    && data[i] as int < 128
    && (data[i] == '\r' ==> linebreaks && (i > 0 ==> data[i - 1] != '\r'))
    && (data[i] == '\n' ==> i > 0 && data[i - 1] == '\r')
  }

  predicate Conforms(data: string, linebreaks: bool) {
    forall i: nat | i < |data| :: AllowedAt(data, linebreaks, i)
  }

  /** smtp_verify */
  method Verify(data: string, linebreaks: bool) returns (ok: bool)
    ensures ok <==> Conforms(data, linebreaks)
  {
    var lastWasCr := false;
    for i := 0 to |data|
      invariant lastWasCr == (i > 0 && data[i - 1] == '\r')
      invariant forall k: nat | k < i :: AllowedAt(data, linebreaks, k)
    {
      var current := data[i];
      if current as int >= 128 {
        assert !AllowedAt(data, linebreaks, i);
        return false;
      }
      if current == '\r' {
        if !linebreaks || lastWasCr {
          assert !AllowedAt(data, linebreaks, i);
          return false;
        }
        lastWasCr := true;
      } else {
        if current == '\n' && !lastWasCr {
          assert !AllowedAt(data, linebreaks, i);
          return false;
        }
        lastWasCr := false;
      }
    }
    ok := true;
  }

  /** No line break at all. */
  predicate OneLine(data: string) { '\r' !in data && '\n' !in data }

  /** Where no line breaks are allowed, the check leaves neither CR nor LF. */
  lemma ConformsOneLine(data: string)
    ensures Conforms(data, false) <==> OneLine(data) && forall i | 0 <= i < |data| :: data[i] as int < 128
  {
    if Conforms(data, false) {
      forall i: nat | i < |data| ensures data[i] != '\r' && data[i] != '\n' && data[i] as int < 128 {
        assert AllowedAt(data, false, i);
        if i > 0 { assert AllowedAt(data, false, i - 1); }
      }
    }
  }

  // ---------------------------------------------------------------------------
  // The end of the data

  datatype Letter = Letter(from: string, to: string, subject: string, body: string)

  /** smtp_send_mail_alloced checks all four parts, allowing no line breaks. */
  predicate Accepted(m: Letter) {
    Conforms(m.to, false) && Conforms(m.from, false) && Conforms(m.subject, false) && Conforms(m.body, false)
  }

  /** smtp_prepare_header */
  function Header(m: Letter): string {
    "From: <" + m.from + ">\r\nTo: <" + m.to + ">\r\nSubject: " + m.subject + "\r\n\r\n"
  }

  /** Everything that follows the DATA command. */
  function Content(m: Letter): string { Header(m) + m.body + END_OF_DATA }

  /** The end of mail data of section 4.1.1.4 of RFC 5321 stands at i. */
  predicate EndsAt(t: string, i: int) {
    && 0 <= i && i + 5 <= |t|
    && t[i] == '\r' && t[i + 1] == '\n' && t[i + 2] == '.' && t[i + 3] == '\r' && t[i + 4] == '\n'
  }

  /** It stands nowhere but at the very end. */
  ghost predicate EndsOnce(t: string) { forall i | EndsAt(t, i) :: i == |t| - 5 }

  /** A line that is a single dot. */
  predicate DotLine(t: string) { |t| >= 3 && t[0] == '.' && t[1] == '\r' && t[2] == '\n' }

  lemma AfterText(x: string, y: string)
    requires OneLine(x)
    ensures EndsOnce(x + y) <==> EndsOnce(y)
  {
    var t := x + y;
    assert forall k | 0 <= k < |x| :: t[k] == x[k] && x[k] in x;
    forall i | EndsAt(t, i) ensures i >= |x| && EndsAt(y, i - |x|) { }
    if EndsOnce(t) {
      forall i | EndsAt(y, i) ensures i == |y| - 5 { assert EndsAt(t, i + |x|); }
    }
  }

  lemma AfterBreak(z: string)
    ensures EndsOnce(CRLF + z) <==> EndsOnce(z) && (DotLine(z) ==> |z| == 3)
  {
    var t := CRLF + z;
    assert forall k | 0 <= k < |z| :: t[k + 2] == z[k];
    assert EndsAt(t, 0) <==> DotLine(z);
    assert forall i :: EndsAt(t, i) && i != 0 ==> i >= 2 && EndsAt(z, i - 2);
    if EndsOnce(t) {
      forall i | EndsAt(z, i) ensures i == |z| - 5 { assert EndsAt(t, i + 2); }
    }
  }

  /** A line of text is a single dot exactly when the text is. */
  lemma DotLineIff(x: string, z: string)
    requires OneLine(x)
    ensures DotLine(x + CRLF + z) <==> x == "."
  {
    if |x| >= 2 { assert x[1] in x; }
    if |x| == 0 { assert (x + CRLF + z)[0] == '\r'; }
    if |x| == 1 { assert x == [x[0]]; }
  }

  lemma Tail(body: string)
    requires OneLine(body)
    ensures EndsOnce(body + END_OF_DATA)
    ensures DotLine(body + END_OF_DATA) <==> body == "."
  {
    AfterText(body, END_OF_DATA);
    assert END_OF_DATA == CRLF + ".\r\n";
    assert body + END_OF_DATA == body + CRLF + ".\r\n";
    DotLineIff(body, ".\r\n");
  }

  /** One header line in front changes nothing, if the next line is not a single dot. */
  lemma HeaderLine(x: string, z: string)
    requires OneLine(x) && !DotLine(z)
    ensures EndsOnce(x + CRLF + z) <==> EndsOnce(z)
  {
    AfterBreak(z);
    assert x + CRLF + z == x + (CRLF + z);
    AfterText(x, CRLF + z);
  }

  function FromLine(m: Letter): string { "From: <" + m.from + ">" }
  function ToLine(m: Letter): string { "To: <" + m.to + ">" }
  function SubjectLine(m: Letter): string { "Subject: " + m.subject }

  lemma ContentLines(m: Letter)
    ensures Content(m) ==
            FromLine(m) + CRLF + (ToLine(m) + CRLF + (SubjectLine(m) + CRLF + (CRLF + (m.body + END_OF_DATA))))
  {
    assert ">\r\nTo: <" == ">" + CRLF + "To: <";
    assert ">\r\nSubject: " == ">" + CRLF + "Subject: ";
    assert "\r\n\r\n" == CRLF + CRLF;
  }

  /** For every mail the client accepts, a server finds the end of the data only where the
      client put it, exactly when the body is not a single dot. */
  lemma UniqueEndIff(m: Letter)
    requires Accepted(m)
    ensures EndsAt(Content(m), |Content(m)| - 5)
    ensures EndsOnce(Content(m)) <==> m.body != "."
  {
    ConformsOneLine(m.from); ConformsOneLine(m.to); ConformsOneLine(m.subject); ConformsOneLine(m.body);
    ContentLines(m);
    var z := CRLF + (m.body + END_OF_DATA);
    Tail(m.body);
    AfterBreak(m.body + END_OF_DATA);
    HeaderLine(SubjectLine(m), z);
    HeaderLine(ToLine(m), SubjectLine(m) + CRLF + z);
    HeaderLine(FromLine(m), ToLine(m) + CRLF + (SubjectLine(m) + CRLF + z));
  }
}
