/** Server-side includes of the raw HTTP server (contrib/apps/httpserver_raw/httpd.c):
    the tag automaton as a one-shot transducer over a whole file, and what it takes for
    a tag.

    Configuration: tags are kept in the output, single-part inserts. */
module SsiSpec {
  import opened Basics

  const MAX_TAG_NAME_LEN: nat := 8
  const MAX_TAG_INSERT_LEN: nat := 192
  const LEAD_IN: string := "<!--#"
  const LEAD_OUT: string := "-->"

  // ---------------------------------------------------------------------------
  // The one-shot transducer

  /** The registered tags and the handler's answers.  The handler may keep state of its
      own, so an answer may depend on how many tags were completed before. */
  datatype Config = Config(tags: seq<string>, answer: (nat, nat) -> string)

  ghost predicate Wellformed(cfg: Config) { forall k, i :: |cfg.answer(k, i)| <= MAX_TAG_INSERT_LEN }

  /** The first place from `from` on where the tag with this name is registered, or the number of
      tags. */
  function Find(tags: seq<string>, name: string, from: nat): (i: nat)
    requires from <= |tags|
    ensures from <= i <= |tags| && (i < |tags| ==> tags[i] == name)
    ensures forall k | from <= k < i :: tags[k] != name
    decreases |tags| - from
  {
    if from == |tags| || tags[from] == name then from else Find(tags, name, from + 1)
  }

  /** The text that replaces nothing but follows the k-th completed tag. */
  function Insert(cfg: Config, k: nat, name: string): string {
    var i := Find(cfg.tags, CString(name), 0);
    if i < |cfg.tags| then cfg.answer(k, i)
    else "<b>***UNKNOWN TAG " + CString(name) + "***</b>"
  }

  /** What the handler says for the first place where the name is registered. */
  lemma InsertOfTag(cfg: Config, k: nat, name: string, i: nat)
    requires i < |cfg.tags| && cfg.tags[i] == CString(name) && forall j: nat | j < i :: cfg.tags[j] != CString(name)
    ensures Insert(cfg, k, name) == cfg.answer(k, i)
  {
  }

  lemma InsertUnknown(cfg: Config, k: nat, name: string)
    requires CString(name) !in cfg.tags
    ensures Insert(cfg, k, name) == "<b>***UNKNOWN TAG " + CString(name) + "***</b>"
  {
  }

  lemma InsertBounded(cfg: Config, k: nat, name: string)
    requires Wellformed(cfg) && |name| <= MAX_TAG_NAME_LEN
    ensures |Insert(cfg, k, name)| <= MAX_TAG_INSERT_LEN
  {
    CStringEnds(name);
  }

  datatype Scan = Text | LeadIn(i: nat) | Name(name: string) | LeadOut(name: string, i: nat)

  predicate White(c: char) { c == ' ' || c == '\t' || c == '\n' || c == '\r' }

  predicate Completes(q: Scan, c: char) { q.LeadOut? && q.i == 2 && c == LEAD_OUT[2] }

  function Advance(q: Scan, c: char): Scan {
    match q
    case Text => if c == LEAD_IN[0] then LeadIn(1) else Text
    case LeadIn(i) =>
      if i < |LEAD_IN| && c == LEAD_IN[i] then (if i + 1 == |LEAD_IN| then Name("") else LeadIn(i + 1)) else Text
    case Name(n) =>
      if n == "" && White(c) then q
      else if c == LEAD_OUT[0] || White(c) then
        (if n == "" then Text else LeadOut(n, if c == LEAD_OUT[0] then 1 else 0))
      else if |n| < MAX_TAG_NAME_LEN then Name(n + [c])
      else Text
    case LeadOut(n, i) =>
      if i == 0 && White(c) then q
      else if i + 1 < |LEAD_OUT| && c == LEAD_OUT[i] then LeadOut(n, i + 1)
      else Text
  }

  /** What the transducer has reached after some text: the scanner's state, the number
      of completed tags, and the output, in which every completed tag is followed by
      its insert. */
  datatype Reach = Reach(scan: Scan, tags: nat, out: string)

  function Feed(cfg: Config, r: Reach, c: char): Reach {
    if Completes(r.scan, c) then
      Reach(Text, r.tags + 1, r.out + [c] + Insert(cfg, r.tags, r.scan.name))
    else Reach(Advance(r.scan, c), r.tags, r.out + [c])
  }

  function After(cfg: Config, text: string): Reach {
    if text == "" then Reach(Text, 0, "") else Feed(cfg, After(cfg, text[..|text| - 1]), text[|text| - 1])
  }

  function Expand(cfg: Config, text: string): string { After(cfg, text).out }

  lemma AfterSnoc(cfg: Config, text: string, n: nat)
    requires n < |text|
    ensures After(cfg, text[..n + 1]) == Feed(cfg, After(cfg, text[..n]), text[n])
  {
    assert text[..n + 1][..n] == text[..n];
  }

  /** Output is never taken back. */
  lemma {:induction false} ExpandMonotone(cfg: Config, text: string, n: nat)
    requires n <= |text|
    ensures Expand(cfg, text[..n]) <= Expand(cfg, text)
    decreases |text| - n
  {
    if n == |text| {
      assert text[..n] == text;
    } else {
      AfterSnoc(cfg, text, n);
      ExpandMonotone(cfg, text, n + 1);
    }
  }

  // ---------------------------------------------------------------------------
  // What the transducer takes for a tag

  predicate Blank(s: string) {
    forall k | 0 <= k < |s| :: s[k] == ' ' || s[k] == '\t' || s[k] == '\n' || s[k] == '\r'
  }

  predicate TagName(s: string) {
    0 < |s| <= 8 && forall c | c in s :: c != ' ' && c != '\t' && c != '\n' && c != '\r' && c != '-'
  }

  function TagText(w: string, name: string, w': string): string { LEAD_IN + w + name + w' + LEAD_OUT }

  function FeedAll(cfg: Config, r: Reach, text: string): Reach
    decreases |text|
  {
    if text == "" then r else FeedAll(cfg, Feed(cfg, r, text[0]), text[1..])
  }

  lemma {:induction false} AfterConcat(cfg: Config, a: string, b: string)
    ensures After(cfg, a + b) == FeedAll(cfg, After(cfg, a), b)
    decreases |b|
  {
    if b == "" {
      assert a + b == a;
    } else {
      assert (a + b)[..|a| + 1] == a + [b[0]];
      AfterSnoc(cfg, a + b, |a|);
      assert (a + b)[..|a|] == a;
      AfterConcat(cfg, a + [b[0]], b[1..]);
      assert a + [b[0]] + b[1..] == a + b;
    }
  }

  lemma {:induction false} FeedConcat(cfg: Config, r: Reach, a: string, b: string)
    ensures FeedAll(cfg, r, a + b) == FeedAll(cfg, FeedAll(cfg, r, a), b)
    decreases |a|
  {
    if a == "" {
      assert a + b == b;
    } else {
      assert (a + b)[0] == a[0] && (a + b)[1..] == a[1..] + b;
      FeedConcat(cfg, Feed(cfg, r, a[0]), a[1..], b);
    }
  }

  /** Bytes that leave the scanner where it is are only copied. */
  lemma {:induction false} FeedBlank(cfg: Config, r: Reach, w: string)
    requires Blank(w) && (r.scan == Name("") || (r.scan.LeadOut? && r.scan.i == 0))
    ensures FeedAll(cfg, r, w) == r.(out := r.out + w)
    decreases |w|
  {
    if w != "" {
      assert White(w[0]);
      FeedBlank(cfg, Feed(cfg, r, w[0]), w[1..]);
      assert r.out + [w[0]] + w[1..] == r.out + w;
    } else {
      assert r.out + "" == r.out;
    }
  }

  lemma {:induction false} FeedName(cfg: Config, r: Reach, n: string)
    requires r.scan.Name? && |r.scan.name| + |n| <= MAX_TAG_NAME_LEN
    requires forall c | c in n :: !White(c) && c != LEAD_OUT[0]
    ensures FeedAll(cfg, r, n) == r.(scan := Name(r.scan.name + n), out := r.out + n)
    decreases |n|
  {
    if n != "" {
      assert n[0] in n;
      FeedName(cfg, Feed(cfg, r, n[0]), n[1..]);
      assert r.out + [n[0]] + n[1..] == r.out + n;
      assert r.scan.name + [n[0]] + n[1..] == r.scan.name + n;
    } else {
      assert r.out + "" == r.out && r.scan.name + "" == r.scan.name;
    }
  }

  lemma FeedLeadIn(cfg: Config, r: Reach)
    requires r.scan == Text
    ensures FeedAll(cfg, r, LEAD_IN) == r.(scan := Name(""), out := r.out + LEAD_IN)
  {
    var r1 := Feed(cfg, r, '<');
    var r2 := Feed(cfg, r1, '!');
    var r3 := Feed(cfg, r2, '-');
    var r4 := Feed(cfg, r3, '-');
    var r5 := Feed(cfg, r4, '#');
    assert FeedAll(cfg, r4, "#") == r5;
    assert FeedAll(cfg, r3, "-#") == r5;
    assert FeedAll(cfg, r2, "--#") == r5;
    assert FeedAll(cfg, r1, "!--#") == r5;
    assert LEAD_IN[1..] == "!--#";
    assert r5.out == r.out + LEAD_IN;
  }

  /** A tag met in plain text is kept and followed by its insert, wherever white space
      surrounds its name. */
  lemma TagExpands(cfg: Config, text: string, w: string, name: string, w': string)
    requires After(cfg, text).scan == Text && Blank(w) && TagName(name) && Blank(w')
    ensures After(cfg, text + TagText(w, name, w')) ==
            var r := After(cfg, text);
            Reach(Text, r.tags + 1, r.out + TagText(w, name, w') + Insert(cfg, r.tags, name))
  {
    var r := After(cfg, text);
    var r1 := r.(scan := Name(name), out := r.out + (LEAD_IN + w + name));
    FeedLeadIn(cfg, r);
    FeedTagStart(cfg, r, LEAD_IN, w, name);
    FeedTagEnd(cfg, r1, w');
    AfterThree(cfg, text, LEAD_IN + w + name, w', LEAD_OUT);
    TagWritten(r.out, w, name, w');
  }

  /** So a tag that is registered at i is followed by what the handler says for i. */
  lemma RegisteredTagExpands(cfg: Config, text: string, w: string, name: string, w': string, i: nat)
    requires After(cfg, text).scan == Text && Blank(w) && TagName(name) && Blank(w') && '\0' !in name
    requires i < |cfg.tags| && cfg.tags[i] == name && forall j: nat | j < i :: cfg.tags[j] != name
    ensures After(cfg, text + TagText(w, name, w')).out ==
            After(cfg, text).out + (LEAD_IN + w + name + w' + LEAD_OUT) + cfg.answer(After(cfg, text).tags, i)
  {
    TagExpands(cfg, text, w, name, w');
    CStringEnds(name);
    InsertOfTag(cfg, After(cfg, text).tags, name, i);
  }

  // ---------------------------------------------------------------------------
  // Pages of text and tags

  datatype Piece = Plain(text: string) | Tag(before: string, name: string, after: string)

  predicate Proper(p: Piece) {
    if p.Plain? then LEAD_IN[0] !in p.text else Blank(p.before) && TagName(p.name) && Blank(p.after)
  }

  function Written(p: Piece): string { if p.Plain? then p.text else TagText(p.before, p.name, p.after) }

  function Source(page: seq<Piece>): string {
    if |page| == 0 then "" else Source(page[..|page| - 1]) + Written(page[|page| - 1])
  }

  function TagsIn(page: seq<Piece>): nat {
    if |page| == 0 then 0 else TagsIn(page[..|page| - 1]) + (if page[|page| - 1].Tag? then 1 else 0)
  }

  /** The page as its author means it. */
  function Filled(cfg: Config, page: seq<Piece>): string {
    if |page| == 0 then ""
    else
      var (rest, p) := (page[..|page| - 1], page[|page| - 1]);
      Filled(cfg, rest) + Written(p) + (if p.Tag? then Insert(cfg, TagsIn(rest), p.name) else "")
  }

  lemma {:induction false} FeedPlain(cfg: Config, r: Reach, text: string)
    requires r.scan == Text && LEAD_IN[0] !in text
    ensures FeedAll(cfg, r, text) == r.(out := r.out + text)
    decreases |text|
  {
    if text == "" {
      assert r.out + text == r.out;
    } else {
      assert text[0] in text;
      FeedPlain(cfg, Feed(cfg, r, text[0]), text[1..]);
      assert r.out + [text[0]] + text[1..] == r.out + text;
    }
  }

  /** Every page of plain text and tags comes out as it is meant. */
  lemma {:induction false} PageExpands(cfg: Config, page: seq<Piece>)
    requires forall p | p in page :: Proper(p)
    ensures After(cfg, Source(page)) == Reach(Text, TagsIn(page), Filled(cfg, page))
    decreases |page|
  {
    if |page| > 0 {
      var (rest, p) := (page[..|page| - 1], page[|page| - 1]);
      PageExpands(cfg, rest);
      assert Proper(p);
      match p
      case Plain(text) =>
        AfterConcat(cfg, Source(rest), text);
        FeedPlain(cfg, After(cfg, Source(rest)), text);
        assert Filled(cfg, page) == Filled(cfg, rest) + text;
      case Tag(before, name, after) => TagExpands(cfg, Source(rest), before, name, after);
    }
  }

  lemma TagWritten(out: string, w: string, name: string, w': string)
    ensures out + (LEAD_IN + w + name) + w' + LEAD_OUT == out + TagText(w, name, w')
  {
  }

  lemma AfterThree(cfg: Config, text: string, a: string, b: string, c: string)
    ensures After(cfg, text + (a + b + c)) == FeedAll(cfg, FeedAll(cfg, FeedAll(cfg, After(cfg, text), a), b), c)
  {
    AfterConcat(cfg, text, a + b + c);
    FeedConcat(cfg, After(cfg, text), a + b, c);
    FeedConcat(cfg, After(cfg, text), a, b);
  }

  /** Up to the end of the name. */
  lemma FeedTagStart(cfg: Config, r: Reach, lead: string, w: string, name: string)
    requires FeedAll(cfg, r, lead) == r.(scan := Name(""), out := r.out + lead) && Blank(w) && TagName(name)
    ensures FeedAll(cfg, r, lead + w + name) == r.(scan := Name(name), out := r.out + (lead + w + name))
  {
    var r1 := r.(scan := Name(""), out := r.out + lead);
    var r2 := r1.(out := r1.out + w);
    assert FeedAll(cfg, r, lead + w) == r2 by {
      FeedConcat(cfg, r, lead, w);
      FeedBlank(cfg, r1, w);
    }
    assert FeedAll(cfg, r2, name) == r2.(scan := Name(name), out := r2.out + name) by {
      FeedName(cfg, r2, name);
      assert "" + name == name;
    }
    FeedConcat(cfg, r, lead + w, name);
    assert r.out + lead + w + name == r.out + (lead + w + name);
  }

  /** From the end of the name on. */
  lemma FeedTagEnd(cfg: Config, r: Reach, w: string)
    requires r.scan.Name? && TagName(r.scan.name) && Blank(w)
    ensures FeedAll(cfg, FeedAll(cfg, r, w), LEAD_OUT) ==
            Reach(Text, r.tags + 1, r.out + w + LEAD_OUT + Insert(cfg, r.tags, r.scan.name))
  {
    var n := r.scan.name;
    var r1 := r.(scan := LeadOut(n, 0), out := r.out + w);
    if w == "" {
      assert r.out + w == r.out;
    } else {
      assert White(w[0]);
      FeedBlank(cfg, Feed(cfg, r, w[0]), w[1..]);
      assert r.out + [w[0]] + w[1..] == r.out + w;
    }
    var r0 := FeedAll(cfg, r, w);
    assert r0 == if w == "" then r else r1;
    var d1 := Feed(cfg, r0, '-');
    var d2 := Feed(cfg, d1, '-');
    var d3 := Feed(cfg, d2, '>');
    assert FeedAll(cfg, d2, ">") == d3;
    assert FeedAll(cfg, d1, "->") == d3;
    assert LEAD_OUT[1..] == "->" && LEAD_OUT[0] == '-';
    assert r.out + w + "-" + "-" + ">" == r.out + w + LEAD_OUT;
  }

  /** One byte before the end of a tag its name is known and the tag not yet counted. */
  lemma FeedTagAlmost(cfg: Config, r: Reach, w: string)
    requires r.scan.Name? && TagName(r.scan.name) && Blank(w)
    ensures var q := FeedAll(cfg, FeedAll(cfg, r, w), "--");
            q.scan == LeadOut(r.scan.name, 2) && q.tags == r.tags
  {
    if w != "" {
      assert White(w[0]);
      FeedBlank(cfg, Feed(cfg, r, w[0]), w[1..]);
    }
    var r0 := FeedAll(cfg, r, w);
    assert r0.scan == (if w == "" then r.scan else LeadOut(r.scan.name, 0)) && r0.tags == r.tags;
    var d1 := Feed(cfg, r0, '-');
    var d2 := Feed(cfg, d1, '-');
    assert FeedAll(cfg, d1, "-") == d2;
    assert "--"[1..] == "-" && "--"[0] == '-';
  }

  ghost predicate EndsWith(text: string, suffix: string) {
    |suffix| <= |text| && text[|text| - |suffix|..] == suffix
  }

  lemma EndsWithSnoc(text: string, suffix: string, c: char)
    requires EndsWith(text, suffix)
    ensures EndsWith(text + [c], suffix + [c])
  {
    assert (text + [c])[|text| - |suffix|..] == text[|text| - |suffix|..] + [c];
  }

  /** The text really ends in what the scanner's state claims to have seen. */
  ghost predicate Explains(text: string, q: Scan) {
    match q
    case Text => true
    case LeadIn(i) => 1 <= i < |LEAD_IN| && EndsWith(text, LEAD_IN[..i])
    case Name(n) => (n == "" || TagName(n)) && exists w :: Blank(w) && EndsWith(text, LEAD_IN + w + n)
    case LeadOut(n, i) => TagName(n) && i < |LEAD_OUT| && EndsInTagUpTo(text, n, i)
  }

  lemma ExplainsLeadIn(text: string, i: nat, c: char)
    requires Explains(text, LeadIn(i)) || i == 0
    requires i < |LEAD_IN| && c == LEAD_IN[i]
    ensures Explains(text + [c], if i + 1 == |LEAD_IN| then Name("") else LeadIn(i + 1))
  {
    assert EndsWith(text, LEAD_IN[..i]);
    EndsWithSnoc(text, LEAD_IN[..i], c);
    assert LEAD_IN[..i] + [c] == LEAD_IN[..i + 1];
    if i + 1 == |LEAD_IN| {
      assert LEAD_IN[..i + 1] == LEAD_IN + "" + "" && Blank("");
    }
  }

  lemma ExplainsName(text: string, n: string, c: char)
    requires Explains(text, Name(n))
    ensures Explains(text + [c], Advance(Name(n), c))
  {
    var w :| Blank(w) && EndsWith(text, LEAD_IN + w + n);
    EndsWithSnoc(text, LEAD_IN + w + n, c);
    if n == "" && White(c) {
      assert LEAD_IN + w + n + [c] == LEAD_IN + (w + [c]) + n && Blank(w + [c]);
    } else if (c == LEAD_OUT[0] || White(c)) && n != "" {
      var w' := if c == LEAD_OUT[0] then "" else [c];
      assert LEAD_IN + w + n + [c] == LEAD_IN + w + n + w' + LEAD_OUT[..if c == LEAD_OUT[0] then 1 else 0];
      assert Blank(w');
    } else if !(c == LEAD_OUT[0] || White(c)) && |n| < MAX_TAG_NAME_LEN {
      assert LEAD_IN + w + n + [c] == LEAD_IN + w + (n + [c]) && TagName(n + [c]);
    }
  }

  ghost predicate EndsInTagUpTo(text: string, n: string, i: nat)
    requires i <= |LEAD_OUT|
  {
    exists w, w' :: Blank(w) && Blank(w') && EndsWith(text, LEAD_IN + w + n + w' + LEAD_OUT[..i])
  }

  lemma LeadOutByte(text: string, n: string, i: nat, c: char)
    requires i < |LEAD_OUT| && EndsInTagUpTo(text, n, i) && c == LEAD_OUT[i]
    ensures EndsInTagUpTo(text + [c], n, i + 1)
  {
    var w, w' :| Blank(w) && Blank(w') && EndsWith(text, LEAD_IN + w + n + w' + LEAD_OUT[..i]);
    EndsWithSnoc(text, LEAD_IN + w + n + w' + LEAD_OUT[..i], c);
    assert LEAD_IN + w + n + w' + LEAD_OUT[..i] + [c] == LEAD_IN + w + n + w' + LEAD_OUT[..i + 1];
  }

  lemma ExplainsLeadOut(text: string, n: string, i: nat, c: char)
    requires Explains(text, LeadOut(n, i))
    ensures Explains(text + [c], Advance(LeadOut(n, i), c))
  {
    if c == LEAD_OUT[i] {
      LeadOutByte(text, n, i, c);
    } else if i == 0 && White(c) {
      LeadOutBlank(text, n, c);
    }
  }

  lemma LeadOutBlank(text: string, n: string, c: char)
    requires EndsInTagUpTo(text, n, 0) && White(c)
    ensures EndsInTagUpTo(text + [c], n, 0)
  {
    var w, w' :| Blank(w) && Blank(w') && EndsWith(text, LEAD_IN + w + n + w' + LEAD_OUT[..0]);
    EndsWithSnoc(text, LEAD_IN + w + n + w' + LEAD_OUT[..0], c);
    assert LEAD_IN + w + n + w' + LEAD_OUT[..0] + [c] == LEAD_IN + w + n + (w' + [c]) + LEAD_OUT[..0];
    assert Blank(w' + [c]);
  }

  lemma {:induction false} ScanExplained(cfg: Config, text: string)
    ensures Explains(text, After(cfg, text).scan)
  {
    if text != "" {
      var (t, c) := (text[..|text| - 1], text[|text| - 1]);
      assert text == t + [c];
      ScanExplained(cfg, t);
      match After(cfg, t).scan {
        case Text => if c == LEAD_IN[0] { ExplainsLeadIn(t, 0, c); }
        case LeadIn(i) => if c == LEAD_IN[i] { ExplainsLeadIn(t, i, c); }
        case Name(n) => ExplainsName(t, n, c);
        case LeadOut(n, i) => ExplainsLeadOut(t, n, i, c);
      }
    }
  }

  /** An insert only ever follows a real tag of that name. */
  lemma OnlyTagsComplete(cfg: Config, text: string, c: char)
    requires Completes(After(cfg, text).scan, c)
    ensures TagName(After(cfg, text).scan.name)
    ensures exists w, w' :: Blank(w) && Blank(w') && EndsWith(text + [c], TagText(w, After(cfg, text).scan.name, w'))
  {
    ScanExplained(cfg, text);
    var q := After(cfg, text).scan;
    LeadOutByte(text, q.name, q.i, c);
    var w, w' :| Blank(w) && Blank(w') && EndsWith(text + [c], LEAD_IN + w + q.name + w' + LEAD_OUT[..3]);
    assert LEAD_OUT[..3] == LEAD_OUT;
    assert EndsWith(text + [c], TagText(w, q.name, w'));
  }

  /** But the scanner does not start over on the character that breaks a lead-in: after
      a stray '<' whatever follows up to the next '<' is copied, "!--#name-->" included. */
  lemma StrayOpenerHidesTag(cfg: Config, tail: string)
    requires '<' !in tail
    ensures Expand(cfg, "<<" + tail) == "<<" + tail
  {
    var r := Reach(Text, 0, "");
    var r2 := Feed(cfg, Feed(cfg, r, '<'), '<');
    assert "<<"[..1] == "<" && After(cfg, "") == r;
    assert After(cfg, "<") == Feed(cfg, r, '<');
    assert After(cfg, "<<") == r2;
    PlainCopied(cfg, r2, tail);
    AfterConcat(cfg, "<<", tail);
  }

  /** Text without '<' is copied. */
  lemma {:induction false} PlainCopied(cfg: Config, r: Reach, text: string)
    requires r.scan == Text && '<' !in text
    ensures FeedAll(cfg, r, text) == r.(out := r.out + text)
    decreases |text|
  {
    if text != "" {
      assert text[0] in text;
      PlainCopied(cfg, Feed(cfg, r, text[0]), text[1..]);
      assert r.out + [text[0]] + text[1..] == r.out + text;
    } else {
      assert r.out + "" == r.out;
    }
  }
}
