/** The server-side-include sender of the raw HTTP server
    (contrib/apps/httpserver_raw/httpd.c): a resumable parser and sender, called again
    whenever TCP has room, proved to send what the one-shot transducer outputs.

    Configuration: the whole file in one block, no HTTP/0.9 header stripping. */
module Ssi {
  import opened Basics
  import opened SsiSpec

  // ---------------------------------------------------------------------------
  // The connection as the sender sees it

  datatype Err = Ok | Mem | Other

  /** A TCP connection: `sent` is what tcp_write has accepted.  tcp_write accepts all of
      its argument or none of it; its result and the send-buffer space afterwards are
      not determined.  A willing connection accepts every write and always has room for one more
      byte, but perhaps not for two. */
  class Pcb {
    const willing: bool
    var sent: string
    var sndbuf: nat

    ghost predicate Roomy()
      reads this
    {
      willing ==> sndbuf > 0
    }

    /** Time passes, and the space in the send buffer changes. */
    method Turn()
      modifies `sndbuf
      ensures Roomy()
    {
      sndbuf := *;
      if willing && sndbuf == 0 { sndbuf := 1; }
    }

    method Write(data: string) returns (err: Err)
      modifies this
      ensures sent == old(sent) + if err.Ok? then data else ""
      ensures Roomy() && (willing ==> err.Ok?)
    {
      err := *;
      if willing { err := Ok; }
      Turn();
      if err.Ok? { sent := sent + data; }
    }

    /** http_write: tries ever smaller lengths while memory is short. */
    method HttpWrite(data: string) returns (err: Err, len: nat)
      requires |data| <= U16_MAX && Roomy()
      modifies this
      ensures len <= |data|
      ensures sent == old(sent) + data[..len]
      ensures !err.Ok? ==> len == 0
      ensures Roomy() && (willing ==> err.Ok? && (|data| > 0 ==> len > 0))
    {
      len := |data|;
      if len == 0 { return Ok, 0; }
      if sndbuf < len { len := sndbuf; }
      var maxLen: nat := *;
      if willing && maxLen < 1 { maxLen := 1; }
      if len > maxLen { len := maxLen; }
      err := Ok;
      var more := true;
      while more
        invariant len <= |data| && Roomy() && (willing ==> err.Ok? && len > 0)
        invariant more ==> sent == old(sent)
        invariant !more ==> sent == old(sent) + if err.Ok? then data[..len] else ""
        decreases if more then len + 1 else 0
      {
        err := Write(data[..len]);
        if err.Mem? {
          var queueFull: bool := *;
          len := if sndbuf == 0 || queueFull then 1 else len / 2;
          more := len > 1;
        } else {
          more := false;
        }
      }
      if !err.Ok? { len := 0; }
    }
  }

  lemma SplitUnsent(sent: string, data: string, f: nat, n: nat, p: nat, tail: string)
    requires f + n <= p <= |data|
    ensures sent + data[f..f + n] + (data[f + n..p] + tail) == sent + (data[f..p] + tail)
  {
    assert data[f..f + n] + data[f + n..p] == data[f..p];
  }

  lemma SplitInsert(sent: string, insert: string, i: nat, n: nat)
    requires i + n <= |insert|
    ensures sent + insert[i..i + n] + ("" + insert[i + n..]) == sent + ("" + insert[i..])
  {
    assert insert[i..i + n] + insert[i + n..] == insert[i..];
  }

  // ---------------------------------------------------------------------------
  // The state of a transfer as a value: what its fields mean and which moves keep it

  datatype TagState = TagNone | TagLeadIn | TagFound | TagLeadOut | TagSending

  /** The fields of struct http_state and struct http_ssi_state that a transfer uses
      (pointers into the file are offsets), and what TCP has accepted. */
  datatype View = View(p: Parser, file: nat, left: nat, sent: string)

  datatype Parser = Parser(parsed: nat, parseLeft: nat, tagEnd: nat, tagIndex: nat, tagNameLen: nat,
                           tagName: string, tagInsert: string, tagState: TagState, asked: nat)

  /** A transfer: the handler, the file, and what the connection carried before. */
  datatype Job = Job(cfg: Config, data: string, base: string)

  /** The concrete tag state stands for this state of the scanner. */
  ghost predicate Stands(p: Parser, q: Scan) {
    && |p.tagName| == MAX_TAG_NAME_LEN + 1
    && match p.tagState
       case TagNone => q == Text
       case TagLeadIn =>
         1 <= p.tagIndex <= |LEAD_IN| && q == if p.tagIndex == |LEAD_IN| then Name("") else LeadIn(p.tagIndex)
       case TagFound => p.tagIndex <= MAX_TAG_NAME_LEN && q == Name(p.tagName[..p.tagIndex])
       case TagLeadOut =>
         && p.tagIndex < |LEAD_OUT| && p.tagNameLen <= MAX_TAG_NAME_LEN
         && q == LeadOut(p.tagName[..p.tagNameLen], p.tagIndex)
       case TagSending => q == Text && p.tagEnd == p.parsed && p.tagIndex <= |p.tagInsert|
  }

  /** The last parsed byte has completed a tag, whose insert is in the buffer. */
  ghost predicate JustCompleted(j: Job, p: Parser) {
    0 < p.parsed <= |j.data| &&
    var r := After(j.cfg, j.data[..p.parsed - 1]);
    Completes(r.scan, j.data[p.parsed - 1]) && p.tagInsert == Insert(j.cfg, r.tags, r.scan.name)
  }

  /** The last byte of the file completes a tag. */
  predicate LastCompletes(cfg: Config, data: string) {
    data != "" && Completes(After(cfg, data[..|data| - 1]).scan, data[|data| - 1])
  }

  /** The parser's part of the invariant; a tag at the very end is never left behind. */
  ghost predicate ParserOk(j: Job, p: Parser) {
    && p.parsed <= |j.data| && p.parseLeft == |j.data| - p.parsed
    && Stands(p, After(j.cfg, j.data[..p.parsed]).scan)
    && p.asked == After(j.cfg, j.data[..p.parsed]).tags
    && (p.tagState.TagSending? ==> JustCompleted(j, p))
    && (p.parsed == |j.data| && LastCompletes(j.cfg, j.data) ==> p.tagState.TagSending?)
  }

  /** What follows the file bytes in the output: the unsent part of an insert. */
  function Pending(p: Parser): string {
    if p.tagState.TagSending? && p.tagIndex <= |p.tagInsert| then p.tagInsert[p.tagIndex..] else ""
  }

  /** Everything sent, followed by what is parsed and still unsent, is exactly what the
      transducer outputs for the bytes parsed so far. */
  ghost predicate SenderOk(j: Job, v: View) {
    && v.file <= v.p.parsed <= |j.data| && v.left == |j.data| - v.file
    && (v.p.tagState.TagSending? && (v.file < v.p.parsed || v.p.parseLeft == 0) ==> v.p.tagIndex == 0)
    && j.base + Expand(j.cfg, j.data[..v.p.parsed]) == v.sent + (j.data[v.file..v.p.parsed] + Pending(v.p))
  }

  ghost predicate Sound(j: Job, v: View) { ParserOk(j, v.p) && SenderOk(j, v) }

  /** Handing n file bytes to TCP. */
  lemma FileBytesSent(j: Job, v: View, v': View, n: nat)
    requires Sound(j, v) && v.file + n <= v.p.parsed
    requires v' == v.(file := v.file + n, left := v.left - n, sent := v.sent + j.data[v.file..v.file + n])
    ensures Sound(j, v')
  {
    SplitUnsent(v.sent, j.data, v.file, n, v.p.parsed, Pending(v.p));
  }

  /** Handing n bytes of the insert to TCP, once the file bytes before it are out. */
  lemma InsertBytesSent(j: Job, v: View, v': View, n: nat)
    requires Sound(j, v) && v.p.tagState.TagSending? && v.file == v.p.parsed && v.p.parseLeft > 0
    requires v.p.tagIndex + n <= |v.p.tagInsert|
    requires v' == v.(p := v.p.(tagIndex := v.p.tagIndex + n),
                      sent := v.sent + v.p.tagInsert[v.p.tagIndex..v.p.tagIndex + n])
    ensures Sound(j, v')
  {
    assert j.data[v.file..v.p.parsed] == "";
    SplitInsert(v.sent, v.p.tagInsert, v.p.tagIndex, n);
  }

  /** The insert is out: back to looking for tags. */
  lemma InsertDone(j: Job, v: View, v': View)
    requires Sound(j, v) && v.p.tagState.TagSending? && v.file == v.p.parsed && v.p.tagIndex == |v.p.tagInsert|
    requires v.p.parseLeft > 0
    requires v' == v.(p := v.p.(tagIndex := 0, tagState := TagNone))
    ensures Sound(j, v')
  {
  }

  /** The byte to be parsed next, and the scanner's state before it. */
  ghost function Scanner(j: Job, v: View): Scan
    requires v.p.parsed <= |j.data|
  {
    After(j.cfg, j.data[..v.p.parsed]).scan
  }

  /** A byte that completes no tag. */
  lemma ByteParsed(j: Job, v: View, v': View)
    requires Sound(j, v) && !v.p.tagState.TagSending? && v.p.parsed < |j.data|
    requires !Completes(Scanner(j, v), j.data[v.p.parsed])
    requires v'.p.parsed == v.p.parsed + 1 && v'.p.parseLeft == v.p.parseLeft - 1 && !v'.p.tagState.TagSending?
    requires v'.file == v.file && v'.left == v.left && v'.p.asked == v.p.asked && v'.sent == v.sent
    requires Stands(v'.p, Advance(Scanner(j, v), j.data[v.p.parsed]))
    ensures Sound(j, v')
  {
    AfterSnoc(j.cfg, j.data, v.p.parsed);
    ByteAppended(j.base, Expand(j.cfg, j.data[..v.p.parsed]), v.sent, j.data, v.file, v.p.parsed);
  }

  /** The lead-out lacks only its last byte. */
  lemma TagRead(j: Job, v: View)
    requires Sound(j, v) && v.p.tagState.TagLeadOut? && v.p.tagIndex == 2 && v.p.parseLeft > 0
    ensures v.p.parsed < |j.data| && v.p.tagNameLen <= MAX_TAG_NAME_LEN < |v.p.tagName|
    ensures Scanner(j, v) == LeadOut(v.p.tagName[..v.p.tagNameLen], 2)
  {
  }

  /** A byte that completes a tag: the insert joins what is unsent. */
  lemma TagParsed(j: Job, v: View, v': View)
    requires Sound(j, v) && !v.p.tagState.TagSending? && v.p.parsed < |j.data|
    requires Completes(Scanner(j, v), j.data[v.p.parsed])
    requires v' == v.(p := v.p.(parsed := v.p.parsed + 1, parseLeft := v.p.parseLeft - 1, tagEnd := v.p.parsed + 1,
                      tagInsert := Insert(j.cfg, v.p.asked, Scanner(j, v).name), tagIndex := 0, tagState := TagSending,
                      asked := v.p.asked + 1))
    ensures Sound(j, v')
  {
    AfterSnoc(j.cfg, j.data, v.p.parsed);
    var out := Expand(j.cfg, j.data[..v.p.parsed]);
    ByteAppended(j.base, out, v.sent, j.data, v.file, v.p.parsed);
    assert Pending(v'.p) == v'.p.tagInsert;
    Followed(j.base, out + [j.data[v.p.parsed]], v.sent, j.data[v.file..v.p.parsed + 1], v'.p.tagInsert);
  }

  lemma Followed(base: string, out: string, sent: string, unsent: string, insert: string)
    requires base + out == sent + unsent
    ensures base + (out + insert) == sent + (unsent + insert)
  {
    assert base + (out + insert) == base + out + insert;
    assert sent + (unsent + insert) == sent + unsent + insert;
  }

  lemma ByteAppended(base: string, out: string, sent: string, data: string, f: nat, p: nat)
    requires f <= p < |data| && base + out == sent + (data[f..p] + "")
    ensures base + (out + [data[p]]) == sent + (data[f..p + 1] + "") == sent + data[f..p + 1]
  {
    assert data[f..p + 1] == data[f..p] + [data[p]];
    assert base + (out + [data[p]]) == base + out + [data[p]];
  }

  // ---------------------------------------------------------------------------
  // What the transfer promises

  /** At every moment the bytes sent are a prefix of the expansion of the whole file. */
  lemma SentIsPrefix(j: Job, v: View)
    requires Sound(j, v)
    ensures v.sent <= j.base + Expand(j.cfg, j.data)
  {
    ExpandMonotone(j.cfg, j.data, v.p.parsed);
    var e := Expand(j.cfg, j.data[..v.p.parsed]);
    assert v.sent <= j.base + e;
    assert j.base + e <= j.base + Expand(j.cfg, j.data);
  }

  /** The last byte of the file completes a tag whose insert is not empty. */
  predicate EndsInTag(cfg: Config, data: string) {
    LastCompletes(cfg, data) &&
    var r := After(cfg, data[..|data| - 1]);
    Insert(cfg, r.tags, r.scan.name) != ""
  }

  /** A file that ends in a tag is such a file, if the tag has an insert. */
  lemma TagAtEnd(cfg: Config, text: string, w: string, name: string, w': string)
    requires After(cfg, text).scan == Text && Blank(w) && TagName(name) && Blank(w')
    ensures EndsInTag(cfg, text + TagText(w, name, w')) <==> Insert(cfg, After(cfg, text).tags, name) != ""
  {
    FeedLeadIn(cfg, After(cfg, text));
    FeedTagStart(cfg, After(cfg, text), LEAD_IN, w, name);
    NamedTagAtEnd(cfg, text, LEAD_IN + w + name, name, w');
    assert TagText(w, name, w') == LEAD_IN + w + name + w' + LEAD_OUT;
  }

  /** The same, once the tag has been read up to its name. */
  lemma NamedTagAtEnd(cfg: Config, text: string, start: string, name: string, w: string)
    requires TagName(name) && Blank(w)
    requires var r := After(cfg, text);
             FeedAll(cfg, r, start) == r.(scan := Name(name), out := r.out + start)
    ensures EndsInTag(cfg, text + (start + w + LEAD_OUT)) <==> Insert(cfg, After(cfg, text).tags, name) != ""
  {
    AlmostThere(cfg, text, start, name, w);
    WithoutLast(text, start + w);
    LastByteDecides(cfg, text + (start + w + LEAD_OUT), After(cfg, text + (start + w + "--")));
  }

  lemma AlmostThere(cfg: Config, text: string, start: string, name: string, w: string)
    requires TagName(name) && Blank(w)
    requires var r := After(cfg, text);
             FeedAll(cfg, r, start) == r.(scan := Name(name), out := r.out + start)
    ensures var q := After(cfg, text + (start + w + "--"));
            q.scan == LeadOut(name, 2) && q.tags == After(cfg, text).tags
  {
    FeedTagAlmost(cfg, FeedAll(cfg, After(cfg, text), start), w);
    AfterThree(cfg, text, start, w, "--");
  }

  lemma LastByteDecides(cfg: Config, data: string, q: Reach)
    requires |data| > 0 && After(cfg, data[..|data| - 1]) == q && data[|data| - 1] == '>'
    requires q.scan.LeadOut? && q.scan.i == 2
    ensures EndsInTag(cfg, data) <==> Insert(cfg, q.tags, q.scan.name) != ""
  {
  }

  lemma WithoutLast(text: string, tag: string)
    ensures var data := text + (tag + LEAD_OUT);
            data[..|data| - 1] == text + (tag + "--") && data[|data| - 1] == '>'
  {
    assert LEAD_OUT == "--" + ">";
    assert text + (tag + LEAD_OUT) == text + (tag + "--") + ">";
  }

  /** What is out when every byte of the file is out. */
  lemma SentAtEof(j: Job, v: View)
    requires Sound(j, v) && v.left == 0
    ensures j.base + Expand(j.cfg, j.data) == v.sent + (if v.p.tagState.TagSending? then v.p.tagInsert else "")
    ensures j.data[..v.p.parsed] == j.data
  {
    assert j.data[..v.p.parsed] == j.data && v.file == v.p.parsed;
    assert j.data[v.file..v.p.parsed] == "";
    assert Pending(v.p) == if v.p.tagState.TagSending? then v.p.tagInsert else "";
  }

  /** When every byte of the file is out, the whole expansion is out, except for the
      insert of a tag completed by the very last byte; so the transfer is complete if
      and only if the file does not end in such a tag. */
  lemma CompleteAtEof(j: Job, v: View)
    requires Sound(j, v) && v.left == 0
    ensures v.sent == j.base + Expand(j.cfg, j.data) <==> !EndsInTag(j.cfg, j.data)
  {
    SentAtEof(j, v);
    assert v.p.parsed == |j.data|;
    assert v.p.tagState.TagSending? ==> (EndsInTag(j.cfg, j.data) <==> v.p.tagInsert != "");
  }

  // ---------------------------------------------------------------------------
  // The sender

  class HttpState {
    const cfg: Config
    const data: string        // the file, all of it in one block
    const pcb: Pcb
    const tagName: array<char>

    var file: nat             // offset of the first unsent byte
    var left: nat             // number of unsent bytes
    var parsed: nat           // offset of the first unparsed byte
    var parseLeft: nat
    var tagEnd: nat
    var tagIndex: nat
    var tagNameLen: nat
    var tagInsert: string
    var tagState: TagState
    var asked: nat            // how many tags the handler has been asked for
    var closed: bool          // http_eof has been reached

    ghost const base: string  // what the connection had carried before this file

    ghost function TheJob(): Job { Job(cfg, data, base) }

    ghost function Fields(): View
      reads this, tagName, pcb
    {
      View(Parser(parsed, parseLeft, tagEnd, tagIndex, tagNameLen, tagName[..], tagInsert, tagState, asked),
           file, left, pcb.sent)
    }

    ghost predicate Valid()
      reads this, tagName, pcb
    {
      Wellformed(cfg) && tagName.Length == MAX_TAG_NAME_LEN + 1 && Sound(TheJob(), Fields()) &&
      |tagInsert| <= MAX_TAG_INSERT_LEN && (closed ==> left == 0) && pcb.Roomy()
    }

    /** Bytes to hand over before parsing can go on. */
    ghost function ToSend(): nat
      reads this
    {
      if tagState.TagSending? && file <= parsed && tagIndex <= |tagInsert| then parsed - file + |tagInsert| - tagIndex
      else 0
    }

    /** http_init_file */
    constructor (cfg: Config, data: string, pcb: Pcb)
      requires Wellformed(cfg) && pcb.Roomy()
      ensures Valid() && this.cfg == cfg && this.data == data && this.pcb == pcb && base == pcb.sent
      ensures fresh(tagName) && !closed
    {
      this.cfg, this.data, this.pcb, this.base := cfg, data, pcb, pcb.sent;
      tagName := new char[MAX_TAG_NAME_LEN + 1];
      file, left, parsed, parseLeft, tagEnd := 0, |data|, 0, |data|, 0;
      tagIndex, tagNameLen, tagInsert, tagState, asked, closed := 0, 0, "", TagNone, 0, false;
    }

    /** get_tag_insert: the registered tag with this name, or the error text. */
    method GetTagInsert(name: string) returns (insert: string)
      ensures insert == Insert(cfg, asked, name)
      ensures CString(name) in cfg.tags ==>
                exists i: nat | i < |cfg.tags| && cfg.tags[i] == CString(name) && CString(name) !in cfg.tags[..i] ::
                  insert == cfg.answer(asked, i)
      ensures CString(name) !in cfg.tags ==> insert == "<b>***UNKNOWN TAG " + CString(name) + "***</b>"
    {
      var loop := 0;
      while loop < |cfg.tags|
        invariant loop <= |cfg.tags|
        invariant CString(name) !in cfg.tags[..loop]
        invariant Find(cfg.tags, CString(name), 0) == Find(cfg.tags, CString(name), loop)
      {
        if cfg.tags[loop] == CString(name) { return cfg.answer(asked, loop); }
        loop := loop + 1;
      }
      insert := "<b>***UNKNOWN TAG " + CString(name) + "***</b>";
    }

    /** Hands unsent file bytes up to `end` to TCP, as many as it takes. */
    method SendFile(end: nat) returns (err: Err, len: nat)
      requires Valid() && file <= end <= parsed
      modifies `file, `left, pcb
      ensures Valid()
      ensures file == old(file) + len && file <= end
      ensures !err.Ok? ==> len == 0
      ensures pcb.willing ==> err.Ok? && (old(file) < end ==> len > 0)
    {
      len := if end - file < U16_MAX then end - file else U16_MAX;
      ghost var v := Fields();
      err, len := WriteFile(len);
      FileBytesSent(TheJob(), v, Fields(), len);
    }

    /** Hands some of the next n bytes of the file to TCP, and books them. */
    method WriteFile(n: nat) returns (err: Err, len: nat)
      requires file + n <= |data| && n <= left && n <= U16_MAX && pcb.Roomy()
      modifies `file, `left, pcb
      ensures pcb.Roomy() && len <= n && (!err.Ok? ==> len == 0) && (pcb.willing ==> err.Ok? && (n > 0 ==> len > 0))
      ensures Fields() ==
              old(Fields().(file := file + len, left := left - len, sent := pcb.sent + data[file..file + len]))
    {
      ghost var block := data[file..file + n];
      err, len := pcb.HttpWrite(data[file..file + n]);
      assert block[..len] == data[file..file + len];
      if err.Ok? {
        file := file + len;
        left := left - len;
      }
    }

    /** Moves on to the next byte, once the tag state says what the last one meant. */
    method Consume(ghost v: View)
      requires Wellformed(cfg) && |tagInsert| <= MAX_TAG_INSERT_LEN && (closed ==> left == 0) && pcb.Roomy()
      requires Sound(TheJob(), v) && !v.p.tagState.TagSending? && v.p.parsed < |data|
      requires !Completes(Scanner(TheJob(), v), data[v.p.parsed])
      requires parsed == v.p.parsed && parseLeft == v.p.parseLeft && asked == v.p.asked
      requires file == v.file && left == v.left && pcb.sent == v.sent
      requires !tagState.TagSending? && Stands(Fields().p, Advance(Scanner(TheJob(), v), data[v.p.parsed]))
      modifies `parsed, `parseLeft
      ensures Valid() && parseLeft == old(parseLeft) - 1
    {
      parseLeft := parseLeft - 1;
      parsed := parsed + 1;
      ByteParsed(TheJob(), v, Fields());
    }

    /** TAG_NONE: look for the first lead-in character. */
    method ParseNone()
      requires Valid() && tagState.TagNone? && parseLeft > 0
      modifies `tagState, `tagIndex, `parsed, `parseLeft
      ensures Valid() && parseLeft == old(parseLeft) - 1
      ensures !tagState.TagSending?
    {
      ghost var v := Fields();
      if data[parsed] == LEAD_IN[0] {
        tagState := TagLeadIn;
        tagIndex := 1;
      }
      Consume(v);
    }

    /** TAG_LEADIN: after the whole lead-in no byte is consumed. */
    method ParseLeadIn()
      requires Valid() && tagState.TagLeadIn? && parseLeft > 0
      modifies `tagState, `tagIndex, `parsed, `parseLeft
      ensures Valid()
      ensures parseLeft == old(parseLeft) - 1 || (parseLeft == old(parseLeft) && tagState.TagFound?)
      ensures !tagState.TagSending?
    {
      ghost var v := Fields();
      if tagIndex == |LEAD_IN| {
        tagIndex := 0;
        tagState := TagFound;
        assert Fields().p.tagName[..0] == "";
      } else {
        if data[parsed] == LEAD_IN[tagIndex] {
          tagIndex := tagIndex + 1;
        } else {
          tagState := TagNone;
        }
        Consume(v);
      }
    }

    /** TAG_FOUND: collect the tag name. */
    method ParseFound()
      requires Valid() && tagState.TagFound? && parseLeft > 0
      modifies `tagState, `tagIndex, `tagNameLen, `parsed, `parseLeft, tagName
      ensures Valid() && parseLeft == old(parseLeft) - 1
      ensures !tagState.TagSending?
    {
      ghost var v := Fields();
      var c := data[parsed];
      if tagIndex == 0 && White(c) {
      } else if c == LEAD_OUT[0] || White(c) {
        if tagIndex == 0 {
          tagState := TagNone;
        } else {
          NameEnds(c);
        }
      } else if tagIndex < MAX_TAG_NAME_LEN {
        NameGrows(c);
      } else {
        tagState := TagNone;
      }
      Consume(v);
    }

    method NameGrows(c: char)
      requires tagName.Length == MAX_TAG_NAME_LEN + 1 && tagIndex < MAX_TAG_NAME_LEN
      modifies `tagIndex, tagName
      ensures tagIndex == old(tagIndex) + 1 && tagName[..tagIndex] == old(tagName[..tagIndex]) + [c]
    {
      tagName[tagIndex] := c;
      tagIndex := tagIndex + 1;
    }

    method NameEnds(c: char)
      requires tagName.Length == MAX_TAG_NAME_LEN + 1 && 0 < tagIndex <= MAX_TAG_NAME_LEN
      modifies `tagState, `tagIndex, `tagNameLen, tagName
      ensures tagState == TagLeadOut && tagNameLen == old(tagIndex) && tagIndex == if c == LEAD_OUT[0] then 1 else 0
      ensures tagName[..tagNameLen] == old(tagName[..tagIndex])
    {
      tagState := TagLeadOut;
      tagNameLen := tagIndex;
      tagName[tagIndex] := '\0';
      tagIndex := if c == LEAD_OUT[0] then 1 else 0;
    }

    /** TAG_LEADOUT: at the end of a tag, fetch its insert and send what precedes it. */
    method ParseLeadOut(len0: nat) returns (err: Err, len: nat, wrote: bool)
      requires Valid() && tagState.TagLeadOut? && parseLeft > 0
      modifies `tagState, `tagIndex, `tagInsert, `tagEnd, `asked, `parsed, `parseLeft, `file, `left, pcb
      ensures Valid() && parseLeft == old(parseLeft) - 1 && file >= old(file)
      ensures pcb.willing && len0 > 0 ==> err.Ok? && len > 0 && (tagState.TagSending? ==> file > old(file))
    {
      err, len, wrote := Ok, len0, false;
      var c := data[parsed];
      if c == LEAD_OUT[tagIndex] && tagIndex == |LEAD_OUT| - 1 {
        CompleteTag();
        if tagEnd > file {
          err, len := SendFile(tagEnd);
          wrote := err.Ok?;
        }
      } else {
        ghost var v := Fields();
        if tagIndex == 0 && White(c) {
        } else if c == LEAD_OUT[tagIndex] {
          tagIndex := tagIndex + 1;
        } else {
          tagState := TagNone;
        }
        Consume(v);
      }
    }

    method CompleteTag()
      requires Valid() && tagState.TagLeadOut? && parseLeft > 0
      requires data[parsed] == LEAD_OUT[2] && tagIndex == 2
      modifies `tagState, `tagIndex, `tagInsert, `tagEnd, `asked, `parsed, `parseLeft
      ensures Valid() && tagState.TagSending? && parseLeft == old(parseLeft) - 1
    {
      ghost var v := Fields();
      TagRead(TheJob(), v);
      BookTag();
      TagParsed(TheJob(), v, Fields());
    }

    /** Asks for the insert of the tag just read, and gets ready to send it. */
    method BookTag()
      requires Wellformed(cfg) && tagNameLen <= MAX_TAG_NAME_LEN < tagName.Length && parseLeft > 0
      modifies `tagState, `tagIndex, `tagInsert, `tagEnd, `asked, `parsed, `parseLeft
      ensures Fields() == old(Fields()).(p := old(Fields().p.(parsed := parsed + 1, parseLeft := parseLeft - 1,
                tagEnd := parsed + 1, tagInsert := Insert(cfg, asked, tagName[..][..tagNameLen]), tagIndex := 0,
                tagState := TagSending, asked := asked + 1)))
      ensures |tagInsert| <= MAX_TAG_INSERT_LEN
    {
      assert tagName[..][..tagNameLen] == tagName[..tagNameLen];
      InsertBounded(cfg, asked, tagName[..tagNameLen]);
      tagInsert := GetTagInsert(tagName[..tagNameLen]);
      asked := asked + 1;
      parseLeft := parseLeft - 1;
      parsed := parsed + 1;
      tagIndex := 0;
      tagState := TagSending;
      tagEnd := parsed;
    }

    /** TAG_SENDING: file bytes up to the tag's end, then the insert, then on. */
    method SendTag(len0: nat) returns (err: Err, len: nat, wrote: bool)
      requires Valid() && tagState.TagSending? && parseLeft > 0
      modifies `tagState, `tagIndex, `file, `left, pcb
      ensures Valid()
      ensures tagState.TagNone? || (tagState.TagSending? && ToSend() <= old(ToSend()))
      ensures tagState.TagSending? && err.Ok? && len > 0 ==> ToSend() < old(ToSend())
      ensures file >= old(file) && (pcb.willing && len0 > 0 ==> err.Ok? && len > 0)
    {
      err, len, wrote := Ok, len0, false;
      if tagEnd > file {
        err, len := SendFile(tagEnd);
        wrote := err.Ok?;
      } else if tagIndex < |tagInsert| {
        err, len := SendInsert();
        wrote := err.Ok?;
      } else {
        ghost var v := Fields();
        tagIndex := 0;
        tagState := TagNone;
        InsertDone(TheJob(), v, Fields());
      }
    }

    /** What is left of the insert. */
    method SendInsert() returns (err: Err, len: nat)
      requires Valid() && tagState.TagSending? && parseLeft > 0 && tagEnd <= file && tagIndex < |tagInsert|
      modifies `tagIndex, pcb
      ensures Valid() && ToSend() <= old(ToSend()) && (err.Ok? && len > 0 ==> ToSend() < old(ToSend()))
      ensures pcb.willing ==> err.Ok? && len > 0
    {
      ghost var v := Fields();
      err, len := pcb.HttpWrite(tagInsert[tagIndex..]);
      assert v.p.tagInsert[v.p.tagIndex..][..len] == v.p.tagInsert[v.p.tagIndex..v.p.tagIndex + len];
      if err.Ok? {
        tagIndex := tagIndex + len;
      }
      InsertBytesSent(TheJob(), v, Fields(), len);
    }

    /** How far a state is from the parsing of the next byte. */
    ghost function Rank(): nat
      reads `tagState
    {
      if tagState.TagSending? then 2 else if tagState.TagLeadIn? then 1 else 0
    }

    /** A round of the loop that looks at the next byte. */
    method ParseByte(len0: nat) returns (err: Err, len: nat, wrote: bool)
      requires Valid() && parseLeft > 0 && len0 > 0 && !tagState.TagSending?
      modifies `tagState, `tagIndex, `tagNameLen, `tagInsert, `tagEnd, `asked, `parsed, `parseLeft
      modifies `file, `left, tagName, pcb
      ensures Valid() && file >= old(file)
      ensures parseLeft == old(parseLeft) - 1 || (parseLeft == old(parseLeft) && Rank() < old(Rank()))
      ensures pcb.willing ==> err.Ok? && len > 0 && (tagState.TagSending? ==> file > old(file))
    {
      err, len, wrote := Ok, len0, false;
      match tagState {
        case TagNone => ParseNone();
        case TagLeadIn => ParseLeadIn();
        case TagFound => ParseFound();
        case TagLeadOut => err, len, wrote := ParseLeadOut(len);
      }
    }

    /** One round of the loop: a byte is parsed, or the state or the unsent data gets nearer to
        that, or TCP takes nothing. */
    method Round(len0: nat) returns (err: Err, len: nat, wrote: bool)
      requires Valid() && parseLeft > 0 && len0 > 0
      modifies `tagState, `tagIndex, `tagNameLen, `tagInsert, `tagEnd, `asked, `parsed, `parseLeft
      modifies `file, `left, tagName, pcb
      ensures Valid() && file >= old(file) && parseLeft <= old(parseLeft)
      ensures parseLeft == old(parseLeft) ==> Rank() <= old(Rank())
      ensures parseLeft == old(parseLeft) && Rank() == old(Rank()) ==> ToSend() <= old(ToSend())
      ensures parseLeft == old(parseLeft) && Rank() == old(Rank()) && ToSend() == old(ToSend()) ==> !err.Ok? || len == 0
      ensures pcb.willing ==> err.Ok? && len > 0 && (tagState.TagSending? && parseLeft == 0 ==> file > old(file))
    {
      if tagState.TagSending? {
        err, len, wrote := SendTag(len0);
      } else {
        err, len, wrote := ParseByte(len0);
      }
    }

    /** The offsets of the parser and the sender partition the file. */
    lemma Partition()
      requires Valid()
      ensures file + left == |data| == parsed + parseLeft && file <= parsed
    {
    }

    /** http_send_data_ssi: one call, which ends whatever TCP answers, and sends something if the
        connection is willing. */
    method SendDataSsi() returns (wrote: bool)
      requires Valid()
      modifies `tagState, `tagIndex, `tagNameLen, `tagInsert, `tagEnd, `asked, `parsed, `parseLeft
      modifies `file, `left, tagName, pcb
      ensures Valid() && file >= old(file)
      ensures pcb.willing && old(file) < |data| ==> file > old(file)
    {
      var err, len := Ok, pcb.sndbuf;
      wrote := false;
      if parsed > file {
        err, len := SendFile(parsed);
        wrote := err.Ok?;
        if pcb.sndbuf == 0 { return; }
      }
      var w := SendRest(err, len);
      wrote := wrote || w;
    }

    /** The loop, and what it leaves to be sent. */
    method SendRest(err0: Err, len0: nat) returns (wrote: bool)
      requires Valid()
      modifies `tagState, `tagIndex, `tagNameLen, `tagInsert, `tagEnd, `asked, `parsed, `parseLeft
      modifies `file, `left, tagName, pcb
      ensures Valid() && file >= old(file)
      ensures pcb.willing && err0.Ok? && len0 > 0 && old(file) == old(parsed) < |data| ==> file > old(file)
    {
      var stop;
      stop, wrote := Parse(err0, len0);
      if stop { return; }
      if !tagState.TagSending? && parsed > file {
        var err, _ := SendFile(parsed);
        wrote := wrote || err.Ok?;
      }
      Partition();
    }

    /** The loop; stop means that the call returns at once, since TCP took nothing. */
    method Parse(err0: Err, len0: nat) returns (stop: bool, wrote: bool)
      requires Valid()
      modifies `tagState, `tagIndex, `tagNameLen, `tagInsert, `tagEnd, `asked, `parsed, `parseLeft
      modifies `file, `left, tagName, pcb
      ensures Valid() && file >= old(file)
      ensures pcb.willing && err0.Ok? && len0 > 0 ==>
                !stop && parseLeft == 0 && (tagState.TagSending? ==> file > old(file) || old(parseLeft) == 0)
    {
      var err, len := err0, len0;
      wrote := false;
      while parseLeft > 0 && err.Ok?
        invariant Valid() && file >= old(file) && parseLeft <= old(parseLeft)
        invariant pcb.willing && err0.Ok? && len0 > 0 ==> err.Ok? && len > 0
        invariant pcb.willing && err0.Ok? && len0 > 0 && tagState.TagSending? && parseLeft == 0 ==>
                    file > old(file) || old(parseLeft) == 0
        decreases parseLeft, Rank(), ToSend(), if err.Ok? && len > 0 then 1 else 0
      {
        if len == 0 { return true, wrote; }
        var w;
        err, len, w := Round(len);
        wrote := wrote || w;
      }
      stop := false;
    }

    /** http_send: the connection is closed once every byte of the file is out. */
    method Send() returns (wrote: bool)
      requires Valid()
      modifies this, tagName, pcb
      ensures Valid()
      ensures (closed <==> left == 0) && left <= old(left)
      ensures pcb.willing && old(left) > 0 ==> left < old(left)
    {
      wrote := false;
      Partition();
      if left > 0 {
        wrote := SendDataSsi();
      }
      Partition();
      closed := left == 0;
    }
  }

  /** A whole transfer: any number of calls of http_send, with any send-buffer space in
      between.  What is sent is always a prefix of the expansion, and at the end it is
      the expansion, if and only if the file does not end in a tag with an insert.  Over a
      willing connection every call sends something, so the end is reached. */
  method Serve(cfg: Config, data: string, pcb: Pcb, calls: nat) returns (closed: bool)
    requires Wellformed(cfg) && pcb.Roomy()
    modifies pcb
    ensures pcb.willing && calls > |data| ==> closed
    ensures pcb.sent <= old(pcb.sent) + Expand(cfg, data)
    ensures closed ==> (pcb.sent == old(pcb.sent) + Expand(cfg, data) <==> !EndsInTag(cfg, data))
  {
    var hs := new HttpState(cfg, data, pcb);
    hs.Partition();
    for k := 0 to calls
      invariant hs.Valid() && fresh(hs) && fresh(hs.tagName)
      invariant hs.cfg == cfg && hs.data == data && hs.pcb == pcb && hs.base == old(pcb.sent)
      invariant pcb.willing ==> hs.left == 0 || hs.left + k <= |data|
      invariant k > 0 ==> (hs.closed <==> hs.left == 0)
    {
      pcb.Turn();
      var _ := hs.Send();
    }
    closed := hs.closed;
    SentIsPrefix(hs.TheJob(), hs.Fields());
    if closed { CompleteAtEof(hs.TheJob(), hs.Fields()); }
  }

  /** A transfer that is cut short: over a willing connection, a file that is a single tag is
      closed with the insert of the tag still to be sent. */
  method TagAloneIsCut(cfg: Config, pcb: Pcb) returns (closed: bool)
    requires Wellformed(cfg) && pcb.willing && pcb.Roomy() && Insert(cfg, 0, "x") != ""
    modifies pcb
    ensures closed && pcb.sent < old(pcb.sent) + Expand(cfg, "<!--#x-->")
  {
    assert "" + TagText("", "x", "") == "<!--#x-->";
    TagAtEnd(cfg, "", "", "x", "");
    closed := Serve(cfg, "<!--#x-->", pcb, 10);
  }
}
