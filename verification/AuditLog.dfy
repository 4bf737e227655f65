/**
 The hash-chained audit log: each entry's hash covers the previous hash and a JSON
 record of the event, so that the head hash stands for the whole log.

 The hash is a parameter, a function to 64 lower-case hex digits.  It is not
 assumed to be injective: the theorems speak of logs in which no two hashed texts
 collide, or name the two entries that do.
 */
module AuditLog {
  import opened Results

  type Hasher = string -> string

  function HexDigit(n: nat): char
    requires n < 16
  {
    "0123456789abcdef"[n]
  }

  predicate IsHex(c: char) { '0' <= c <= '9' || 'a' <= c <= 'f' }

  ghost predicate HexDigests(hash: Hasher) {
    forall s :: |hash(s)| == 64 && forall i :: 0 <= i < 64 ==> IsHex(hash(s)[i])
  }

  // ----- JSON strings, as the encoder writes them -----

  // A code point below 256 as a six-character escape.
  function HexEscape(n: nat): string
    requires n < 256
  {
    ['\\', 'u', '0', '0', HexDigit(n / 16), HexDigit(n % 16)]
  }

  function Escape(c: char): string {
    var n := c as int;
    if c == '"' || c == '\\' then ['\\', c]
    else if n == 8 then ['\\', 'b']
    else if n == 9 then ['\\', 't']
    else if n == 10 then ['\\', 'n']
    else if n == 12 then ['\\', 'f']
    else if n == 13 then ['\\', 'r']
    else if n < 32 || c == '<' || c == '>' || c == '&' then HexEscape(n)
    else if n == 0x2028 then ['\\', 'u', '2', '0', '2', '8']
    else if n == 0x2029 then ['\\', 'u', '2', '0', '2', '9']
    else [c]
  }

  function Escaped(s: string): string {
    if s == "" then "" else Escape(s[0]) + Escaped(s[1..])
  }

  // Characters that stand for themselves.
  predicate Plain(c: char) {
    c as int >= 32 && c !in ['"', '\\', '<', '>', '&'] && c as int != 0x2028 && c as int != 0x2029
  }

  predicate Short(c: char) { c == '"' || c == '\\' || c as int in {8, 9, 10, 12, 13} }

  /** Plain characters are left alone, seven get a two-character escape, all others a six-character one. */
  lemma EscapeSizes(c: char)
    ensures |Escape(c)| == if Plain(c) then 1 else if Short(c) then 2 else 6
    ensures Plain(c) ==> Escape(c) == [c]
  {}

  // ----- reading them back -----

  function HexValue(c: char): nat {
    if '0' <= c <= '9' then c as int - '0' as int else if 'a' <= c <= 'f' then c as int - 'a' as int + 10 else 0
  }

  // The character a two-character escape stands for.
  function Unescape(c: char): char {
    match c
    case 'b' => 8 as char
    case 't' => 9 as char
    case 'n' => 10 as char
    case 'f' => 12 as char
    case 'r' => 13 as char
    case _ => c
  }

  datatype First = First(c: char, rest: string)

  // The first character of an escaped text, and what follows.
  function ReadChar(s: string): Option<First> {
    if s == "" then None
    else if s[0] != '\\' then Some(First(s[0], s[1..]))
    else if |s| < 2 then None
    else if s[1] != 'u' then Some(First(Unescape(s[1]), s[2..]))
    else if |s| < 6 then None
    else
      var code := 4096 * HexValue(s[2]) + 256 * HexValue(s[3]) + 16 * HexValue(s[4]) + HexValue(s[5]);
      if 0xD800 <= code < 0xE000 then None else Some(First(code as char, s[6..]))
  }

  datatype Quoted = Quoted(text: string, rest: string)

  // An escaped text up to its closing quote, and what follows.
  function ReadQuoted(s: string): Option<Quoted>
    decreases |s|
  {
    if s == "" then None
    else if s[0] == '"' then Some(Quoted("", s[1..]))
    else
      match ReadChar(s)
      case None => None
      case Some(first) =>
        match ReadQuoted(first.rest)
        case None => None
        case Some(q) => Some(Quoted([first.c] + q.text, q.rest))
  }

  lemma HexDigitReads(n: nat)
    requires n < 16
    ensures HexValue(HexDigit(n)) == n
  {}

  lemma HexEscapeReads(n: nat, x: string)
    requires n < 256
    ensures ReadChar(HexEscape(n) + x) == Some(First(n as char, x))
  {
    hide HexDigit, HexValue;
    HexDigitReads(0);
    HexDigitReads(n / 16);
    HexDigitReads(n % 16);
    var s := HexEscape(n) + x;
    assert s[..6] == HexEscape(n) && s[6..] == x;
    assert s[2] == '0' && s[3] == '0' && s[4] == HexDigit(n / 16) && s[5] == HexDigit(n % 16);
    assert HexValue('0') == 0 by { ZeroDigit(); }
  }

  lemma ZeroDigit()
    ensures HexValue('0') == 0
  {}

  lemma ShortReads(c: char, e: char, x: string)
    requires e != 'u' && c == Unescape(e)
    ensures ReadChar(['\\', e] + x) == Some(First(c, x))
  {
    var s := ['\\', e] + x;
    assert s[2..] == x;
  }

  lemma LineSeparatorReads(c: char, d: char, x: string)
    requires c as int == 0x2020 + HexValue(d) && d in ['8', '9']
    ensures ReadChar(['\\', 'u', '2', '0', '2', d] + x) == Some(First(c, x))
  {
    var s := ['\\', 'u', '2', '0', '2', d] + x;
    assert s[6..] == x;
  }

  /** An escaped character reads back as itself. */
  lemma EscapeReads(c: char, x: string)
    ensures ReadChar(Escape(c) + x) == Some(First(c, x)) && (Escape(c) + x)[0] != '"'
  {
    hide ReadChar, HexEscape;
    var n := c as int;
    if Plain(c) {
      PlainReads(c, x);
    } else if c == '"' || c == '\\' {
      ShortReads(c, c, x);
    } else if n in {8, 9, 10, 12, 13} {
      var e := if n == 8 then 'b' else if n == 9 then 't' else if n == 10 then 'n' else if n == 12 then 'f' else 'r';
      ShortReads(c, e, x);
    } else if n == 0x2028 || n == 0x2029 {
      LineSeparatorReads(c, if n == 0x2028 then '8' else '9', x);
    } else {
      HexEscapeReads(n, x);
      HexEscapeStarts(n);
    }
  }

  lemma PlainReads(c: char, x: string)
    requires c != '\\'
    ensures ReadChar([c] + x) == Some(First(c, x))
  {
    assert ([c] + x)[1..] == x;
  }

  lemma HexEscapeStarts(n: nat)
    requires n < 256
    ensures |HexEscape(n)| == 6 && HexEscape(n)[0] == '\\'
  {}

  /** An escaped and closed text reads back as itself, whatever follows. */
  lemma {:induction false} QuotedReads(s: string, x: string)
    ensures ReadQuoted(Escaped(s) + ['"'] + x) == Some(Quoted(s, x))
    decreases |s|
  {
    hide Escape, ReadChar;
    var t := Escaped(s) + ['"'] + x;
    if s == "" {
      assert t[1..] == x;
    } else {
      var rest := Escaped(s[1..]) + ['"'] + x;
      assert t == Escape(s[0]) + rest;
      EscapeReads(s[0], rest);
      QuotedReads(s[1..], x);
      assert [s[0]] + s[1..] == s;
    }
  }

  // ----- the record and what is hashed -----

  const OPEN_TYPE := "{\"event_type\":\""
  const OPEN_PAYLOAD := ",\"payload\":\""
  const OPEN_PREV := ",\"prev_hash\":\""

  function Record(eventType: string, payload: string, prevHash: string): string {
    OPEN_TYPE + Escaped(eventType) + ['"'] + OPEN_PAYLOAD + Escaped(payload) + ['"']
    + OPEN_PREV + Escaped(prevHash) + ['"', '}']
  }

  function Preimage(eventType: string, payload: string, prevHash: string): string {
    prevHash + Record(eventType, payload, prevHash)
  }

  // A text after the expected beginning.
  function After(s: string, start: string): Option<string> {
    if start <= s then Some(s[|start|..]) else None
  }

  datatype Fields = Fields(eventType: string, payload: string, prevHash: string)

  function ReadKey(s: string, start: string): Option<Quoted> {
    match After(s, start)
    case None => None
    case Some(t) => ReadQuoted(t)
  }

  // The three fields of a record.
  function ReadRecord(s: string): Option<Fields> {
    match ReadKey(s, "{\"event_type\":\"")
    case None => None
    case Some(e) =>
      match ReadKey(e.rest, ",\"payload\":\"")
      case None => None
      case Some(p) =>
        match ReadKey(p.rest, ",\"prev_hash\":\"")
        case None => None
        case Some(h) => if h.rest == "}" then Some(Fields(e.text, p.text, h.text)) else None
  }

  lemma KeyReads(start: string, text: string, x: string)
    ensures ReadKey(start + (Escaped(text) + ['"'] + x), start) == Some(Quoted(text, x))
  {
    hide Escaped, ReadQuoted;
    var s := start + (Escaped(text) + ['"'] + x);
    assert start <= s && s[|start|..] == Escaped(text) + ['"'] + x;
    QuotedReads(text, x);
  }

  /** The record reads back as its three fields, under their names. */
  lemma RecordReads(e: string, p: string, h: string)
    ensures ReadRecord(Record(e, p, h)) == Some(Fields(e, p, h))
  {
    hide Record, Escaped, ReadKey, OPEN_TYPE, OPEN_PAYLOAD, OPEN_PREV;
    var z := Escaped(h) + ['"'] + ['}'];
    var y := Escaped(p) + ['"'] + (OPEN_PREV + z);
    var x := Escaped(e) + ['"'] + (OPEN_PAYLOAD + y);
    RecordNested(e, p, h, x, y, z);
    KeyReads(OPEN_TYPE, e, OPEN_PAYLOAD + y);
    KeyReads(OPEN_PAYLOAD, p, OPEN_PREV + z);
    KeyReads(OPEN_PREV, h, ['}']);
    Names();
  }

  lemma Names()
    ensures OPEN_TYPE == "{\"event_type\":\"" && OPEN_PAYLOAD == ",\"payload\":\"" && OPEN_PREV == ",\"prev_hash\":\""
  {}

  lemma RecordNested(e: string, p: string, h: string, x: string, y: string, z: string)
    requires z == Escaped(h) + ['"'] + ['}']
    requires y == Escaped(p) + ['"'] + (OPEN_PREV + z) && x == Escaped(e) + ['"'] + (OPEN_PAYLOAD + y)
    ensures Record(e, p, h) == OPEN_TYPE + x
  {
    hide Escaped, OPEN_TYPE, OPEN_PAYLOAD, OPEN_PREV;
    assert Escaped(h) + ['"', '}'] == z;
  }

  lemma CancelPrefix(p: string, x: string, y: string)
    requires p + x == p + y
    ensures x == y
  {
    assert (p + x)[|p|..] == x && (p + y)[|p|..] == y;
  }

  // What a previous hash can be: nothing, or 64 hex digits.
  ghost predicate PrevOk(h: string) {
    h == "" || (|h| == 64 && IsHex(h[0]))
  }

  /** What is hashed determines the event type, the payload and the previous hash. */
  lemma PreimageInjective(e: string, p: string, h: string, e': string, p': string, h': string)
    requires PrevOk(h) && PrevOk(h') && Preimage(e, p, h) == Preimage(e', p', h')
    ensures e == e' && p == p' && h == h'
  {
    hide Record;
    var l, r := Preimage(e, p, h), Preimage(e', p', h');
    RecordFirst(e, p, h);
    RecordFirst(e', p', h');
    assert h == "" ==> l[0] == '{';
    assert h' == "" ==> r[0] == '{';
    assert |h| == |h'|;
    assert l[..|h|] == h && r[..|h'|] == h';
    CancelPrefix(h, Record(e, p, h), Record(e', p', h'));
    RecordReads(e, p, h);
    RecordReads(e', p', h');
  }

  lemma RecordFirst(e: string, p: string, h: string)
    ensures Record(e, p, h) != "" && Record(e, p, h)[0] == '{'
  {
    hide Escaped;
    assert OPEN_TYPE[0] == '{';
  }

  // ----- the log -----

  datatype AuditEvent = AuditEvent(eventType: string, payload: string, hash: string, prevHash: string)

  function NewEvent(hash: Hasher, eventType: string, payload: string, prevHash: string): AuditEvent {
    AuditEvent(eventType, payload, hash(Preimage(eventType, payload, prevHash)), prevHash)
  }

  function Head(log: seq<AuditEvent>): Option<AuditEvent> {
    if log == [] then None else Some(log[|log| - 1])
  }

  function HeadHash(log: seq<AuditEvent>): string {
    if log == [] then "" else log[|log| - 1].hash
  }

  // The payload text of an event, and what is logged when it cannot be marshalled.
  function PayloadText(marshalled: Option<string>): string {
    if marshalled.Some? then marshalled.value else "{}"
  }

  class AuditStore {
    const hash: Hasher
    var rows: seq<AuditEvent>

    constructor (hash: Hasher)
      ensures rows == [] && this.hash == hash
    {
      this.hash := hash;
      rows := [];
    }

    method AppendAuditEvent(eventType: string, payload: string, prevHash: string) returns (e: AuditEvent)
      modifies this
      ensures e == NewEvent(hash, eventType, payload, prevHash) && rows == old(rows) + [e]
    {
      e := AuditEvent(eventType, payload, hash(Preimage(eventType, payload, prevHash)), prevHash);
      rows := rows + [e];
    }

    method GetAuditHead() returns (e: Option<AuditEvent>)
      ensures e == Head(rows)
    {
      e := if rows == [] then None else Some(rows[|rows| - 1]);
    }

    /** The logger: reads the head, appends the event under its hash. */
    method Handle(eventType: string, marshalled: Option<string>)
      requires ValidChain(hash, rows)
      modifies this
      ensures ValidChain(hash, rows)
      ensures rows == old(rows) + [NewEvent(hash, eventType, PayloadText(marshalled), HeadHash(old(rows)))]
    {
      hide HexDigests, Record, ValidChain;
      var payload := PayloadText(marshalled);
      var prevHash := "";
      var head := GetAuditHead();
      if head.Some? {
        prevHash := head.value.hash;
      }
      var e := AppendAuditEvent(eventType, payload, prevHash);
      ChainSnoc(hash, old(rows), e);
    }
  }

  // An entry that continues the given hash and carries its own.
  ghost predicate EntryOk(hash: Hasher, prevHash: string, e: AuditEvent) {
    e.prevHash == prevHash && e.hash == hash(prevHash + Record(e.eventType, e.payload, prevHash))
  }

  ghost predicate ChainedAt(hash: Hasher, log: seq<AuditEvent>, i: nat)
    requires i < |log|
  {
    EntryOk(hash, if i == 0 then "" else log[i - 1].hash, log[i])
  }

  /** Each entry names its predecessor's hash, the first one none, and carries its own hash. */
  ghost predicate ValidChain(hash: Hasher, log: seq<AuditEvent>) {
    forall i :: 0 <= i < |log| ==> ChainedAt(hash, log, i)
  }

  lemma ChainSnoc(hash: Hasher, log: seq<AuditEvent>, e: AuditEvent)
    ensures ValidChain(hash, log + [e]) <==> ValidChain(hash, log) && EntryOk(hash, HeadHash(log), e)
  {
    hide EntryOk;
    var longer := log + [e];
    assert ChainedAt(hash, longer, |log|) <==> EntryOk(hash, HeadHash(log), e);
    forall i | 0 <= i < |log| ensures ChainedAt(hash, log, i) <==> ChainedAt(hash, longer, i) {
      assert longer[i] == log[i];
    }
    assert ValidChain(hash, longer)
      <==> (forall i :: 0 <= i < |log| ==> ChainedAt(hash, longer, i)) && ChainedAt(hash, longer, |log|);
  }

  lemma PrevIsOk(hash: Hasher, log: seq<AuditEvent>)
    requires HexDigests(hash) && ValidChain(hash, log)
    ensures PrevOk(HeadHash(log)) && (HeadHash(log) == "" <==> log == [])
  {
    hide Record;
    if log != [] {
      var e := log[|log| - 1];
      assert ChainedAt(hash, log, |log| - 1);
      assert |hash(Preimage(e.eventType, e.payload, e.prevHash))| == 64;
    }
  }

  // The text whose hash an entry carries.
  function Hashed(e: AuditEvent): string { Preimage(e.eventType, e.payload, e.prevHash) }

  // An entry of each log, hashed from different texts to the same hash.
  ghost predicate Collide(hash: Hasher, log: seq<AuditEvent>, log': seq<AuditEvent>, i: nat, j: nat) {
    && i < |log| && j < |log'|
    && Hashed(log[i]) != Hashed(log'[j]) && hash(Hashed(log[i])) == hash(Hashed(log'[j]))
  }

  /**
   The head hash alone determines the log.  Two valid logs with the same head hash
   are equal in length, event types, payloads and order; failing that, the lemma
   names an entry of each whose hashed texts differ and collide.
   */
  lemma {:induction false} HeadDeterminesLog(hash: Hasher, log: seq<AuditEvent>, log': seq<AuditEvent>)
      returns (i: nat, j: nat)
    requires HexDigests(hash) && ValidChain(hash, log) && ValidChain(hash, log') && HeadHash(log) == HeadHash(log')
    ensures log == log' || Collide(hash, log, log', i, j)
    decreases |log|
  {
    hide HexDigests, Record, ValidChain;
    i, j := 0, 0;
    PrevIsOk(hash, log);
    PrevIsOk(hash, log');
    if log != [] {
      i, j := |log| - 1, |log'| - 1;
      var e, e', r, r' := log[i], log'[j], log[..i], log'[..j];
      assert log == r + [e] && log' == r' + [e'];
      ChainSnoc(hash, r, e);
      ChainSnoc(hash, r', e');
      if Hashed(e) == Hashed(e') {
        PrevIsOk(hash, r);
        PrevIsOk(hash, r');
        PreimageInjective(e.eventType, e.payload, e.prevHash, e'.eventType, e'.payload, e'.prevHash);
        i, j := HeadDeterminesLog(hash, r, r');
      }
    }
  }

  // No two different texts hashed in the two logs share a hash.
  ghost predicate NoCollision(hash: Hasher, log: seq<AuditEvent>, log': seq<AuditEvent>) {
    forall i, j :: !Collide(hash, log, log', i, j)
  }

  /**
   So a log altered, shortened or reordered behind an unchanged head is a valid
   chain only if it contains a collision with the original.
   */
  lemma TamperingIsDetected(hash: Hasher, log: seq<AuditEvent>, altered: seq<AuditEvent>)
    requires HexDigests(hash) && ValidChain(hash, log) && HeadHash(altered) == HeadHash(log)
    requires altered != log && NoCollision(hash, log, altered)
    ensures !ValidChain(hash, altered)
  {
    hide HexDigests, ValidChain, Collide;
    if ValidChain(hash, altered) {
      var i, j := HeadDeterminesLog(hash, log, altered);
    }
  }

  lemma EmptyChain(hash: Hasher)
    ensures ValidChain(hash, [])
  {}

  // The log after handling the given events in sequence.
  function Logged(hash: Hasher, events: seq<(string, Option<string>)>): seq<AuditEvent> {
    if events == [] then []
    else
      var before := Logged(hash, events[..|events| - 1]);
      var (eventType, marshalled) := events[|events| - 1];
      before + [NewEvent(hash, eventType, PayloadText(marshalled), HeadHash(before))]
  }

  /** Every log built by handling events one after the other is a valid chain of exactly those events. */
  lemma {:induction false} LoggedIsChain(hash: Hasher, events: seq<(string, Option<string>)>)
    ensures ValidChain(hash, Logged(hash, events)) && |Logged(hash, events)| == |events|
    ensures forall i :: 0 <= i < |events| ==> Logged(hash, events)[i].eventType == events[i].0
    ensures forall i :: 0 <= i < |events| ==>
              Logged(hash, events)[i].payload == if events[i].1.Some? then events[i].1.value else "{}"
    decreases |events|
  {
    hide Record, ValidChain, HeadHash, Logged, NewEvent;
    LoggedStep(hash, events);
    if events == [] {
      EmptyChain(hash);
    } else {
      var before := events[..|events| - 1];
      LoggedIsChain(hash, before);
      assert forall i :: 0 <= i < |before| ==> before[i] == events[i];
      var log, e := Logged(hash, before), Logged(hash, events)[|events| - 1];
      NewEntryOk(hash, log, events[|events| - 1].0, PayloadText(events[|events| - 1].1));
      NewEventFields(hash, events[|events| - 1].0, PayloadText(events[|events| - 1].1), HeadHash(log));
      ChainSnoc(hash, log, e);
    }
  }

  lemma LoggedStep(hash: Hasher, events: seq<(string, Option<string>)>)
    ensures events == [] ==> Logged(hash, events) == []
    ensures events != [] ==>
              var before, last := Logged(hash, events[..|events| - 1]), events[|events| - 1];
              Logged(hash, events) == before + [NewEvent(hash, last.0, PayloadText(last.1), HeadHash(before))]
  {
    hide NewEvent, PayloadText, HeadHash;
  }

  lemma NewEventFields(hash: Hasher, eventType: string, payload: string, prevHash: string)
    ensures NewEvent(hash, eventType, payload, prevHash).eventType == eventType
    ensures NewEvent(hash, eventType, payload, prevHash).payload == payload
  {}

  lemma NewEntryOk(hash: Hasher, log: seq<AuditEvent>, eventType: string, payload: string)
    ensures EntryOk(hash, HeadHash(log), NewEvent(hash, eventType, payload, HeadHash(log)))
  {
    hide Record;
  }
}
