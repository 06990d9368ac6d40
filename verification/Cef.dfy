/** The Common Event Format payload of an audit event, and a reader that recovers the event. */
module Cef {

  import opened Text
  import opened Wrappers

  // ---------------------------------------------------------------- escaping

  /** `strings.ReplaceAll` for a one-character pattern. */
  function ReplaceAll(s: string, c: char, sub: string): string {
    if s == "" then ""
    else (if s[0] == c then sub else [s[0]]) + ReplaceAll(s[1..], c, sub)
  }

  function EscapeHeader(s: string): string {
    ReplaceAll(ReplaceAll(s, '\\', "\\\\"), '|', "\\|")
  }

  function EscapeExtension(s: string): string {
    ReplaceAll(ReplaceAll(ReplaceAll(ReplaceAll(s, '\\', "\\\\"), '=', "\\="), '\n', "\\n"), '\r', "\\r")
  }

  datatype Part = Header | Extension

  /** How one character is written in each part of the payload. */
  function Escaped(part: Part, c: char): string {
    if c == '\\' then "\\\\"
    else match part
      case Header => if c == '|' then "\\|" else [c]
      case Extension => if c == '=' then "\\=" else if c == '\n' then "\\n" else if c == '\r' then "\\r" else [c]
  }

  function Escape(part: Part, s: string): string {
    if s == "" then "" else Escaped(part, s[0]) + Escape(part, s[1..])
  }

  lemma {:induction false} ReplaceConcat(a: string, b: string, c: char, sub: string)
    ensures ReplaceAll(a + b, c, sub) == ReplaceAll(a, c, sub) + ReplaceAll(b, c, sub)
  {
    if a == "" {
      assert a + b == b;
    } else {
      assert (a + b)[1..] == a[1..] + b && (a + b)[0] == a[0];
      ReplaceConcat(a[1..], b, c, sub);
      var first := if a[0] == c then sub else [a[0]];
      assert ReplaceAll(a + b, c, sub) == first + ReplaceAll(a[1..] + b, c, sub);
      assert ReplaceAll(a, c, sub) == first + ReplaceAll(a[1..], c, sub);
    }
  }

  lemma ReplaceShort(s: string, c: char, sub: string)
    ensures |s| == 1 ==> ReplaceAll(s, c, sub) == if s[0] == c then sub else s
    ensures |s| == 2 && s[0] != c && s[1] != c ==> ReplaceAll(s, c, sub) == s
  {
    if |s| == 1 {
      assert s[1..] == "";
    } else if |s| == 2 {
      assert s[1..][1..] == "" && s[1..] == [s[1]];
    }
  }

  /** The chained replacements are one replacement per character. */
  lemma {:induction false} ChainIsPerCharacter(s: string)
    ensures EscapeHeader(s) == Escape(Header, s)
    ensures EscapeExtension(s) == Escape(Extension, s)
  {
    if s != "" {
      ChainIsPerCharacter(s[1..]);
      HeaderStep(s[0], s[1..]);
      ExtensionStep(s[0], s[1..]);
      assert s == [s[0]] + s[1..];
    }
  }

  lemma HeaderStep(c: char, t: string)
    ensures EscapeHeader([c] + t) == Escaped(Header, c) + EscapeHeader(t)
  {
    ReplaceConcat([c], t, '\\', "\\\\");
    ReplaceShort([c], '\\', "\\\\");
    var first := if c == '\\' then "\\\\" else [c];
    ReplaceConcat(first, ReplaceAll(t, '\\', "\\\\"), '|', "\\|");
    ReplaceShort(first, '|', "\\|");
  }

  lemma ExtensionStep(c: char, t: string)
    ensures EscapeExtension([c] + t) == Escaped(Extension, c) + EscapeExtension(t)
  {
    var t1 := ReplaceAll(t, '\\', "\\\\");
    var t2 := ReplaceAll(t1, '=', "\\=");
    var t3 := ReplaceAll(t2, '\n', "\\n");
    var c1 := if c == '\\' then "\\\\" else [c];
    var c2 := if c == '=' then "\\=" else c1;
    var c3 := if c == '\n' then "\\n" else c2;
    ReplaceConcat([c], t, '\\', "\\\\");
    ReplaceShort([c], '\\', "\\\\");
    ReplaceConcat(c1, t1, '=', "\\=");
    ReplaceShort(c1, '=', "\\=");
    ReplaceConcat(c2, t2, '\n', "\\n");
    ReplaceShort(c2, '\n', "\\n");
    ReplaceConcat(c3, t3, '\r', "\\r");
    ReplaceShort(c3, '\r', "\\r");
  }

  // ---------------------------------------------------------------- reading

  /** Position of the first delimiter that no backslash escapes. */
  function Find(s: string, d: char): Option<nat> {
    if s == "" then None
    else if s[0] == '\\' then Shift(if |s| >= 2 then Find(s[2..], d) else None, 2)
    else if s[0] == d then Some(0)
    else Shift(Find(s[1..], d), 1)
  }

  function Shift(r: Option<nat>, n: nat): Option<nat> {
    if r.Some? then Some(r.value + n) else None
  }

  function Decoded(part: Part, c: char): char {
    if part == Extension && c == 'n' then '\n' else if part == Extension && c == 'r' then '\r' else c
  }

  function Unescape(part: Part, s: string): string {
    if s == "" then ""
    else if s[0] == '\\' && |s| >= 2 then [Decoded(part, s[1])] + Unescape(part, s[2..])
    else [s[0]] + Unescape(part, s[1..])
  }

  function Delimiter(part: Part): char {
    if part == Header then '|' else '='
  }

  lemma EscapedShape(part: Part, c: char)
    ensures var e := Escaped(part, c);
      (|e| == 1 && e[0] == c && c != '\\' && c != Delimiter(part))
      || (|e| == 2 && e[0] == '\\' && Decoded(part, e[1]) == c)
  {
  }

  lemma FindStep(e: string, rest: string, d: char)
    requires (|e| == 1 && e[0] != '\\' && e[0] != d) || (|e| == 2 && e[0] == '\\')
    ensures Find(e + rest, d) == Shift(Find(rest, d), |e|)
  {
    assert (e + rest)[|e|..] == rest;
  }

  /** An escaped text hides its delimiter: the search goes on behind it. */
  lemma {:induction false} FindSkipsEscaped(part: Part, v: string, tail: string)
    ensures Find(Escape(part, v) + tail, Delimiter(part)) == Shift(Find(tail, Delimiter(part)), |Escape(part, v)|)
  {
    if v == "" {
      assert Escape(part, v) + tail == tail;
    } else {
      var e, rest := Escaped(part, v[0]), Escape(part, v[1..]);
      FindSkipsEscaped(part, v[1..], tail);
      EscapedShape(part, v[0]);
      FindStep(e, rest + tail, Delimiter(part));
      Associate(e, rest, tail);
    }
  }

  lemma Associate(a: string, b: string, c: string)
    ensures (a + b) + c == a + (b + c)
  {
  }

  lemma UnescapeStep(part: Part, c: char, rest: string)
    ensures Unescape(part, Escaped(part, c) + rest) == [c] + Unescape(part, rest)
  {
    var e := Escaped(part, c);
    EscapedShape(part, c);
    assert (e + rest)[|e|..] == rest;
  }

  lemma {:induction false} UnescapeEscaped(part: Part, v: string)
    ensures Unescape(part, Escape(part, v)) == v
  {
    if v != "" {
      UnescapeStep(part, v[0], Escape(part, v[1..]));
      UnescapeEscaped(part, v[1..]);
    }
  }

  /** Text with nothing to escape. */
  predicate Plain(s: string) {
    forall i :: 0 <= i < |s| ==> s[i] != '\\' && s[i] != '=' && s[i] != '|' && s[i] != '\n' && s[i] != '\r'
  }

  predicate PlainWord(s: string) {
    Plain(s) && ' ' !in s
  }

  lemma {:induction false} PlainEscapesToItself(part: Part, s: string)
    requires Plain(s)
    ensures Escape(part, s) == s
  {
    if s != "" {
      PlainEscapesToItself(part, s[1..]);
      assert s == [s[0]] + s[1..];
    }
  }

  /** Position of the last blank. */
  function LastSpace(s: string): Option<nat> {
    if s == "" then None else if s[|s| - 1] == ' ' then Some(|s| - 1) else LastSpace(s[..|s| - 1])
  }

  lemma {:induction false} LastSpaceBeforeWord(a: string, w: string)
    requires ' ' !in w
    ensures LastSpace(a + " " + w) == Some(|a|)
  {
    var s := a + " " + w;
    if w == "" {
      assert s[|s| - 1] == ' ';
    } else {
      assert s[|s| - 1] == w[|w| - 1];
      assert s[..|s| - 1] == a + " " + w[..|w| - 1];
      LastSpaceBeforeWord(a, w[..|w| - 1]);
    }
  }

  datatype Pair = Pair(key: string, value: string)

  /** Reads `key` with its value, then the pairs that follow it in `s`. */
  function ReadFrom(key: string, s: string): seq<Pair>
    decreases |s|
  {
    var at := Find(s, '=');
    if at.None? || at.value >= |s| || LastSpace(s[..at.value]).None? then [Pair(key, Unescape(Extension, s))]
    else
      var blank := LastSpace(s[..at.value]).value;
      if blank >= at.value then [Pair(key, Unescape(Extension, s))]
      else
        [Pair(key, Unescape(Extension, s[..blank]))] + ReadFrom(s[blank + 1..at.value], s[at.value + 1..])
  }

  function ReadExtension(s: string): seq<Pair> {
    var at := Find(s, '=');
    if at.None? || at.value >= |s| then [] else ReadFrom(s[..at.value], s[at.value + 1..])
  }

  /** The payload's last part: `key=value` pairs joined by blanks. */
  function Render(pairs: seq<Pair>): string {
    if pairs == [] then ""
    else if |pairs| == 1 then Assignment(pairs[0])
    else Assignment(pairs[0]) + " " + Render(pairs[1..])
  }

  function Assignment(p: Pair): string {
    p.key + "=" + Escape(Extension, p.value)
  }

  lemma Cut(a: string, m: string, b: string)
    ensures var s := a + m + b;
      |s| == |a| + |m| + |b| && s[..|a|] == a && s[|a|..|a| + |m|] == m && s[|a| + |m|..] == b
  {
  }

  /** The delimiter written behind an escaped text is the first one found. */
  lemma FindBehind(part: Part, v: string, b: string)
    ensures Find(Escape(part, v) + [Delimiter(part)] + b, Delimiter(part)) == Some(|Escape(part, v)|)
  {
    var tail := [Delimiter(part)] + b;
    FindSkipsEscaped(part, v, tail);
    assert Escape(part, v) + [Delimiter(part)] + b == Escape(part, v) + tail;
  }

  lemma FindSkipsPlain(part: Part, w: string, tail: string)
    requires Plain(w)
    ensures Find(w + tail, Delimiter(part)) == Shift(Find(tail, Delimiter(part)), |w|)
  {
    PlainEscapesToItself(part, w);
    FindSkipsEscaped(part, w, tail);
  }

  /** Where the next pair starts behind a value. */
  lemma NextKey(v: string, key: string, more: string)
    requires PlainWord(key)
    ensures var e := Escape(Extension, v);
      Find(e + " " + key + "=" + more, '=') == Some(|e| + 1 + |key|)
  {
    var e, tail := Escape(Extension, v), "=" + more;
    FindSkipsPlain(Extension, " " + key, tail);
    FindSkipsEscaped(Extension, v, " " + key + tail);
    assert e + " " + key + "=" + more == e + (" " + key + tail);
    assert Find(tail, '=') == Some(0);
  }

  lemma ReadLast(key: string, v: string)
    ensures ReadFrom(key, Escape(Extension, v)) == [Pair(key, v)]
  {
    var e := Escape(Extension, v);
    FindSkipsEscaped(Extension, v, "");
    assert e + "" == e;
    UnescapeEscaped(Extension, v);
  }

  lemma ReadNext(key: string, v: string, key2: string, more: string)
    requires PlainWord(key2)
    ensures ReadFrom(key, Escape(Extension, v) + " " + key2 + "=" + more) == [Pair(key, v)] + ReadFrom(key2, more)
  {
    var e, word := Escape(Extension, v), " " + key2;
    var head := e + " " + key2;
    NextKey(v, key2, more);
    Cut(head, "=", more);
    Cut(e, " ", key2);
    LastSpaceBeforeWord(e, key2);
    UnescapeEscaped(Extension, v);
    SubCut(head + "=" + more, head, e, key2);
  }

  lemma SubCut(s: string, head: string, e: string, key: string)
    requires |head| == |e| + 1 + |key| <= |s| && s[..|head|] == head
    requires head[..|e|] == e && head[|e| + 1..] == key
    ensures s[..|e|] == e && s[|e| + 1..|head|] == key
  {
    assert s[..|e|] == s[..|head|][..|e|];
    assert s[|e| + 1..|head|] == s[..|head|][|e| + 1..];
  }

  predicate PlainKeys(pairs: seq<Pair>) {
    forall i :: 0 <= i < |pairs| ==> PlainWord(pairs[i].key)
  }

  /** What follows the first key and its equals sign. */
  function Body(pairs: seq<Pair>): string
    requires pairs != []
  {
    var e := Escape(Extension, pairs[0].value);
    if |pairs| == 1 then e else e + " " + pairs[1].key + "=" + Body(pairs[1..])
  }

  lemma Regroup(key: string, value: string, next: string, body: string)
    ensures key + "=" + value + " " + (next + "=" + body) == key + "=" + (value + " " + next + "=" + body)
  {
  }

  lemma {:induction false} RenderIsKeyAndBody(pairs: seq<Pair>)
    requires pairs != []
    ensures Render(pairs) == pairs[0].key + "=" + Body(pairs)
  {
    if |pairs| > 1 {
      RenderIsKeyAndBody(pairs[1..]);
      Regroup(pairs[0].key, Escape(Extension, pairs[0].value), pairs[1].key, Body(pairs[1..]));
    }
  }

  /** Reading a rendered list gives the list back: same keys, same values, same order. */
  lemma {:induction false} ReadBody(pairs: seq<Pair>)
    requires pairs != [] && PlainKeys(pairs)
    ensures ReadFrom(pairs[0].key, Body(pairs)) == pairs
  {
    var p := pairs[0];
    if |pairs| == 1 {
      ReadLast(p.key, p.value);
    } else {
      assert PlainWord(pairs[1].key);
      ReadNext(p.key, p.value, pairs[1].key, Body(pairs[1..]));
      ReadBody(pairs[1..]);
    }
  }

  lemma ReadFirstKey(key: string, body: string)
    requires Plain(key)
    ensures ReadExtension(key + "=" + body) == ReadFrom(key, body)
  {
    assert Find(key + "=" + body, '=') == Some(|key|) by {
      PlainEscapesToItself(Extension, key);
      FindBehind(Extension, key, body);
    }
    Cut(key, "=", body);
  }

  lemma ReadRendered(pairs: seq<Pair>)
    requires pairs != [] && PlainKeys(pairs)
    ensures ReadExtension(Render(pairs)) == pairs
  {
    RenderIsKeyAndBody(pairs);
    ReadBody(pairs);
    assert PlainWord(pairs[0].key);
    ReadFirstKey(pairs[0].key, Body(pairs));
  }

  // ---------------------------------------------------------------- the event

  datatype Event = Event(
    id: string, millis: Option<int>, actor: string, actorType: string, action: string, resourceType: string,
    resourceId: string, resourceName: string, requestId: string, ip: string, status: int)

  function Digits(n: nat): string {
    if n < 10 then ['0' + n as char] else Digits(n / 10) + ['0' + (n % 10) as char]
  }

  /** `strconv.FormatInt(n, 10)`. */
  function Itoa(n: int): string {
    if n < 0 then "-" + Digits(-n) else Digits(n)
  }

  lemma {:induction false} DigitsPlain(n: nat)
    ensures PlainWord(Digits(n))
  {
    if n >= 10 {
      DigitsPlain(n / 10);
    }
  }

  function Or(text: string, default: string): string {
    if text == "" then default else text
  }

  function Outcome(status: int): string {
    if status >= 400 then "failure" else "success"
  }

  function Severity(e: Event): nat {
    if e.status >= 500 then 8
    else if e.status >= 400 then 6
    else if e.action == "login_failed" || e.action == "account_locked" then 7
    else if e.action == "delete" then 5
    else if e.action == "read" then 1
    else 3
  }

  function Signature(e: Event): string {
    Or(TrimSpace(e.action), "audit")
  }

  function Name(e: Event): string {
    Or(TrimSpace(e.resourceType), "audit") + "." + Signature(e)
  }

  /** A pair, or a labelled pair, when the value is present. */
  function Opt(key: string, value: string): seq<Pair> {
    if value == "" then [] else [Pair(key, value)]
  }

  function Labelled(key: string, name: string, value: string): seq<Pair> {
    if value == "" then [] else [Pair(key + "Label", name), Pair(key, value)]
  }

  /** `net.ParseIP(text).String()`, when the text is an address. */
  function Source(parseIp: string -> Option<string>, e: Event): seq<Pair> {
    if parseIp(e.ip).Some? then [Pair("src", parseIp(e.ip).value)] else []
  }

  /** The facts about the action and who did it, in order. */
  function ActorFacts(parseIp: string -> Option<string>, e: Event): seq<Pair> {
    [Pair("act", e.action), Pair("outcome", Outcome(e.status))]
    + Stamp(e)
    + Opt("externalId", e.id)
    + Opt("suser", e.actor)
    + Labelled("cs1", "actor_type", e.actorType)
    + Source(parseIp, e)
  }

  /** All facts: those about the actor, then the request and the resource it touched. */
  function Facts(parseIp: string -> Option<string>, e: Event): seq<Pair> {
    WithRequest(ActorFacts(parseIp, e), e)
  }

  function WithRequest(facts: seq<Pair>, e: Event): seq<Pair> {
    facts
    + Opt("request", e.requestId)
    + Labelled("cs2", "resource_type", e.resourceType)
    + Labelled("cs3", "resource_id", e.resourceId)
    + Labelled("cs4", "resource_name", e.resourceName)
    + StatusFacts(e)
  }

  function StatusFacts(e: Event): seq<Pair> {
    if e.status != 0 then [Pair("cn1Label", "http_status"), Pair("cn1", Itoa(e.status))] else []
  }

  function Stamp(e: Event): seq<Pair> {
    if e.millis.Some? then [Pair("rt", Itoa(e.millis.value))] else []
  }

  const CEF := "CEF:0"
  const VENDOR := "BadgerOps"
  const PRODUCT := "CloudPAM"

  /** What a payload says: the seven header fields and the ordered facts. */
  datatype Message = Message(fields: seq<string>, facts: seq<Pair>)

  function Contents(version: string, parseIp: string -> Option<string>, e: Event): Message {
    Message([CEF, VENDOR, PRODUCT, Or(TrimSpace(version), "dev"), Signature(e), Name(e), Itoa(Severity(e))],
            Facts(parseIp, e))
  }

  // ---------------------------------------------------------------- what the payload tells

  /** Reads decimal digits. */
  function DigitsValue(s: string): int {
    if s == "" then 0 else 10 * DigitsValue(s[..|s| - 1]) + (s[|s| - 1] as int - '0' as int)
  }

  function IntValue(s: string): int {
    if s != "" && s[0] == '-' then -DigitsValue(s[1..]) else DigitsValue(s)
  }

  lemma {:induction false} DigitsRead(n: nat)
    ensures DigitsValue(Digits(n)) == n && Digits(n) != "" && Digits(n)[0] != '-'
  {
    if n >= 10 {
      DigitsRead(n / 10);
      assert Digits(n)[..|Digits(n)| - 1] == Digits(n / 10);
    } else {
      assert Digits(n)[..0] == "";
    }
  }

  /** A printed number reads back. */
  lemma NumberRead(n: int)
    ensures IntValue(Itoa(n)) == n
  {
    DigitsRead(if n < 0 then -n else n);
    if n < 0 {
      assert Itoa(n)[1..] == Digits(-n);
    }
  }

  /** A pair that the event accounts for: each value under its own key, and nothing for absent values. */
  ghost predicate FactAbout(parseIp: string -> Option<string>, e: Event, p: Pair) {
    (p.key == "act" && p.value == e.action)
    || (p.key == "outcome" && p.value == (if e.status < 400 then "success" else "failure"))
    || (p.key == "rt" && e.millis.Some? && p.value == Itoa(e.millis.value))
    || (p.key == "externalId" && p.value == e.id != "")
    || (p.key == "suser" && p.value == e.actor != "")
    || LabelledFact("cs1", "cs1Label", "actor_type", e.actorType, p)
    || (p.key == "src" && parseIp(e.ip) == Some(p.value))
    || (p.key == "request" && p.value == e.requestId != "")
    || LabelledFact("cs2", "cs2Label", "resource_type", e.resourceType, p)
    || LabelledFact("cs3", "cs3Label", "resource_id", e.resourceId, p)
    || LabelledFact("cs4", "cs4Label", "resource_name", e.resourceName, p)
    || LabelledFact("cn1", "cn1Label", "http_status", if e.status == 0 then "" else Itoa(e.status), p)
  }

  ghost predicate LabelledFact(key: string, labelKey: string, name: string, value: string, p: Pair) {
    value != "" && (p == Pair(key, value) || p == Pair(labelKey, name))
  }

  lemma LabelledIs(key: string, labelKey: string, name: string, value: string, p: Pair)
    requires labelKey == key + "Label"
    ensures p in Labelled(key, name, value) <==> LabelledFact(key, labelKey, name, value, p)
  {
  }

  lemma ActorFactsTell(parseIp: string -> Option<string>, e: Event, p: Pair)
    ensures p in ActorFacts(parseIp, e) <==>
      p == Pair("act", e.action) || p == Pair("outcome", Outcome(e.status)) || p in Stamp(e) || p in Opt("externalId", e.id)
      || p in Opt("suser", e.actor) || p in Labelled("cs1", "actor_type", e.actorType) || p in Source(parseIp, e)
  {
  }

  lemma FactsTell(parseIp: string -> Option<string>, e: Event, p: Pair)
    ensures p in Facts(parseIp, e) <==> FactAbout(parseIp, e, p)
  {
    ActorFactsTell(parseIp, e, p);
    LabelledIs("cs1", "cs1Label", "actor_type", e.actorType, p);
    LabelledIs("cs2", "cs2Label", "resource_type", e.resourceType, p);
    LabelledIs("cs3", "cs3Label", "resource_id", e.resourceId, p);
    LabelledIs("cs4", "cs4Label", "resource_name", e.resourceName, p);
    NumberRead(e.status);
    assert p in StatusFacts(e) <==>
      LabelledFact("cn1", "cn1Label", "http_status", if e.status == 0 then "" else Itoa(e.status), p);
  }

  /** The header names the product, the version, the action and what it touched, and how bad that is. */
  ghost predicate HeaderAbout(version: string, e: Event, fields: seq<string>) {
    |fields| == 7 && fields[..3] == ["CEF:0", "BadgerOps", "CloudPAM"]
    && (TrimSpace(version) == "" ==> fields[3] == "dev") && (TrimSpace(version) != "" ==> fields[3] == TrimSpace(version))
    && (TrimSpace(e.action) == "" ==> fields[4] == "audit") && (TrimSpace(e.action) != "" ==> fields[4] == TrimSpace(e.action))
    && (TrimSpace(e.resourceType) == "" ==> fields[5] == "audit." + fields[4])
    && (TrimSpace(e.resourceType) != "" ==> fields[5] == TrimSpace(e.resourceType) + "." + fields[4])
    && SeverityAbout(e, IntValue(fields[6]))
  }

  /** Server errors are worst, then failed logins and locks, client errors, deletions; reading is least. */
  ghost predicate SeverityAbout(e: Event, severity: int) {
    var login := e.action in {"login_failed", "account_locked"};
    (severity == 8 <==> e.status >= 500)
    && (severity == 7 <==> e.status < 400 && login)
    && (severity == 6 <==> 400 <= e.status < 500)
    && (severity == 5 <==> e.status < 400 && e.action == "delete")
    && (severity == 1 <==> e.status < 400 && e.action == "read")
    && (severity == 3 <==> e.status < 400 && !login && e.action != "delete" && e.action != "read")
  }

  /** A message that tells the event, in full and nothing else. */
  ghost predicate Tells(version: string, parseIp: string -> Option<string>, e: Event, m: Message) {
    HeaderAbout(version, e, m.fields) && forall p :: p in m.facts <==> FactAbout(parseIp, e, p)
  }

  lemma SeverityTells(e: Event)
    ensures SeverityAbout(e, Severity(e))
  {
  }

  lemma ContentsTell(version: string, parseIp: string -> Option<string>, e: Event)
    ensures Tells(version, parseIp, e, Contents(version, parseIp, e))
  {
    NumberRead(Severity(e));
    SeverityTells(e);
    forall p
      ensures p in Facts(parseIp, e) <==> FactAbout(parseIp, e, p)
    {
      FactsTell(parseIp, e, p);
    }
  }

  // ---------------------------------------------------------------- the header

  /** Each part followed by a pipe. */
  function Piped(parts: seq<string>): string {
    if parts == [] then "" else parts[0] + "|" + Piped(parts[1..])
  }

  function EscapeFields(fields: seq<string>): seq<string> {
    seq(|fields|, i requires 0 <= i < |fields| => Escape(Header, fields[i]))
  }

  function HeaderText(fields: seq<string>): string {
    Piped(EscapeFields(fields))
  }

  function ReadFields(s: string, n: nat): Option<(seq<string>, string)>
    decreases n
  {
    if n == 0 then Some(([], s))
    else
      var at := Find(s, '|');
      if at.None? || at.value >= |s| then None
      else
        var more := ReadFields(s[at.value + 1..], n - 1);
        if more.None? then None
        else Some(([Unescape(Header, s[..at.value])] + more.value.0, more.value.1))
  }

  /** Splits the header at seven unescaped pipes and the rest at unescaped equals signs. */
  function Read(s: string): Option<Message> {
    var header := ReadFields(s, 7);
    if header.None? then None else Some(Message(header.value.0, ReadExtension(header.value.1)))
  }

  lemma ReadField(f: string, rest: string, n: nat)
    requires n > 0
    ensures ReadFields(Escape(Header, f) + "|" + rest, n) ==
      var more := ReadFields(rest, n - 1);
      if more.None? then None else Some(([f] + more.value.0, more.value.1))
  {
    var e := Escape(Header, f);
    assert Find(e + "|" + rest, '|') == Some(|e|) by {
      FindBehind(Header, f, rest);
    }
    Cut(e, "|", rest);
    UnescapeEscaped(Header, f);
  }

  lemma {:induction false} ReadHeaderText(fields: seq<string>, tail: string)
    ensures ReadFields(HeaderText(fields) + tail, |fields|) == Some((fields, tail))
  {
    if fields == [] {
      assert HeaderText(fields) + tail == tail;
    } else {
      var e, rest := Escape(Header, fields[0]), HeaderText(fields[1..]);
      assert EscapeFields(fields)[1..] == EscapeFields(fields[1..]);
      assert HeaderText(fields) + tail == e + "|" + (rest + tail);
      ReadField(fields[0], rest + tail, |fields|);
      ReadHeaderText(fields[1..], tail);
      assert fields == [fields[0]] + fields[1..];
    }
  }

  /** A payload built from a message reads back as that message. */
  lemma ReadPayload(m: Message)
    requires |m.fields| == 7 && m.facts != [] && PlainKeys(m.facts)
    ensures Read(HeaderText(m.fields) + Render(m.facts)) == Some(m)
  {
    ReadHeaderText(m.fields, Render(m.facts));
    ReadRendered(m.facts);
  }

  // ---------------------------------------------------------------- the formatter

  function Join(parts: seq<string>): string {
    if parts == [] then "" else if |parts| == 1 then parts[0] else parts[0] + " " + Join(parts[1..])
  }

  ghost function Written(pairs: seq<Pair>): seq<string> {
    if pairs == [] then [] else [Assignment(pairs[0])] + Written(pairs[1..])
  }

  lemma {:induction false} WrittenConcat(a: seq<Pair>, b: seq<Pair>)
    ensures Written(a + b) == Written(a) + Written(b)
  {
    if a == [] {
      assert a + b == b;
    } else {
      assert (a + b)[1..] == a[1..] + b;
      WrittenConcat(a[1..], b);
    }
  }

  lemma {:induction false} JoinWritten(pairs: seq<Pair>)
    ensures |Written(pairs)| == |pairs| && Join(Written(pairs)) == Render(pairs)
  {
    if pairs != [] {
      JoinWritten(pairs[1..]);
      assert Written(pairs)[1..] == Written(pairs[1..]);
    }
  }

  /** Appends a fact the way the formatter writes it. */
  method Add(extensions: seq<string>, ghost facts: seq<Pair>, key: string, value: string) returns (out: seq<string>)
    requires extensions == Written(facts) && PlainKeys(facts) && PlainWord(key)
    ensures out == Written(facts + [Pair(key, value)]) && PlainKeys(facts + [Pair(key, value)])
  {
    ChainIsPerCharacter(value);
    WrittenConcat(facts, [Pair(key, value)]);
    WrittenOne(Pair(key, value));
    out := extensions + [key + "=" + EscapeExtension(value)];
  }

  /** Appends a value that needs no escaping, as it stands. */
  method AddRaw(extensions: seq<string>, ghost facts: seq<Pair>, key: string, value: string) returns (out: seq<string>)
    requires extensions == Written(facts) && PlainKeys(facts) && PlainWord(key) && Plain(value)
    ensures out == Written(facts + [Pair(key, value)]) && PlainKeys(facts + [Pair(key, value)])
  {
    PlainEscapesToItself(Extension, value);
    WrittenConcat(facts, [Pair(key, value)]);
    WrittenOne(Pair(key, value));
    out := extensions + [key + "=" + value];
  }

  lemma WrittenOne(p: Pair)
    ensures Written([p]) == [Assignment(p)]
  {
    assert [p][1..] == [];
  }

  method AddOpt(extensions: seq<string>, ghost facts: seq<Pair>, key: string, value: string) returns (out: seq<string>)
    requires extensions == Written(facts) && PlainKeys(facts) && PlainWord(key)
    ensures out == Written(facts + Opt(key, value)) && PlainKeys(facts + Opt(key, value))
  {
    out := extensions;
    if value == "" {
      assert facts + Opt(key, value) == facts;
    } else {
      out := Add(extensions, facts, key, value);
    }
  }

  method AddLabelled(extensions: seq<string>, ghost facts: seq<Pair>, key: string, name: string, value: string)
    returns (out: seq<string>)
    requires extensions == Written(facts) && PlainKeys(facts) && PlainWord(key) && Plain(name)
    ensures out == Written(facts + Labelled(key, name, value)) && PlainKeys(facts + Labelled(key, name, value))
  {
    out := extensions;
    if value == "" {
      assert facts + Labelled(key, name, value) == facts;
    } else {
      out := AddRaw(out, facts, key + "Label", name);
      out := Add(out, facts + [Pair(key + "Label", name)], key, value);
      assert facts + Labelled(key, name, value) == facts + [Pair(key + "Label", name)] + [Pair(key, value)];
    }
  }

  lemma KeyWords()
    ensures PlainWord("act") && PlainWord("outcome") && PlainWord("rt") && PlainWord("externalId")
    ensures PlainWord("suser") && PlainWord("cs1") && PlainWord("src")
  {
  }

  lemma RequestKeyWords()
    ensures PlainWord("request") && PlainWord("cs2") && PlainWord("cs3") && PlainWord("cs4")
    ensures PlainWord("cn1Label") && PlainWord("cn1")
  {
  }

  lemma LabelWords()
    ensures Plain("actor_type") && Plain("resource_type") && Plain("resource_id")
    ensures Plain("resource_name") && Plain("http_status")
  {
  }

  /** Addresses print without anything that needs escaping. */
  ghost predicate PrintsPlain(parseIp: string -> Option<string>) {
    forall t :: parseIp(t).Some? ==> Plain(parseIp(t).value)
  }

  lemma SourcePlain(parseIp: string -> Option<string>, e: Event)
    requires PrintsPlain(parseIp)
    ensures Source(parseIp, e) == []
            || (Source(parseIp, e) == [Pair("src", Source(parseIp, e)[0].value)] && Plain(Source(parseIp, e)[0].value))
  {
  }

  lemma ItoaPlain(n: int)
    ensures PlainWord(Itoa(n))
  {
    DigitsPlain(if n < 0 then -n else n);
  }

  /** The extension list, one fact at a time. */
  method FormatExtension(parseIp: string -> Option<string>, e: Event) returns (extensions: seq<string>)
    requires PrintsPlain(parseIp)
    ensures extensions == Written(Facts(parseIp, e)) && PlainKeys(Facts(parseIp, e))
  {
    KeyWords();
    LabelWords();
    ghost var facts := [];
    extensions := Add([], facts, "act", e.action);
    facts := facts + [Pair("act", e.action)];
    extensions := Add(extensions, facts, "outcome", Outcome(e.status));
    facts := facts + [Pair("outcome", Outcome(e.status))];
    assert facts == [Pair("act", e.action), Pair("outcome", Outcome(e.status))];
    if e.millis.Some? {
      ItoaPlain(e.millis.value);
      extensions := AddRaw(extensions, facts, "rt", Itoa(e.millis.value));
    }
    assert e.millis.None? ==> facts + Stamp(e) == facts;
    facts := facts + Stamp(e);
    extensions := AddOpt(extensions, facts, "externalId", e.id);
    facts := facts + Opt("externalId", e.id);
    extensions := AddOpt(extensions, facts, "suser", e.actor);
    facts := facts + Opt("suser", e.actor);
    extensions := AddLabelled(extensions, facts, "cs1", "actor_type", e.actorType);
    facts := facts + Labelled("cs1", "actor_type", e.actorType);
    SourcePlain(parseIp, e);
    var source := Source(parseIp, e);
    if source != [] {
      extensions := AddRaw(extensions, facts, "src", source[0].value);
    }
    assert source == [] ==> facts + source == facts;
    facts := facts + source;
    extensions := FormatRequest(extensions, facts, e);
  }

  method FormatRequest(before: seq<string>, ghost facts0: seq<Pair>, e: Event) returns (extensions: seq<string>)
    requires before == Written(facts0) && PlainKeys(facts0)
    ensures extensions == Written(WithRequest(facts0, e)) && PlainKeys(WithRequest(facts0, e))
  {
    RequestKeyWords();
    LabelWords();
    ghost var facts := facts0;
    extensions := AddOpt(before, facts, "request", e.requestId);
    facts := facts + Opt("request", e.requestId);
    extensions := AddLabelled(extensions, facts, "cs2", "resource_type", e.resourceType);
    facts := facts + Labelled("cs2", "resource_type", e.resourceType);
    extensions := AddLabelled(extensions, facts, "cs3", "resource_id", e.resourceId);
    facts := facts + Labelled("cs3", "resource_id", e.resourceId);
    extensions := AddLabelled(extensions, facts, "cs4", "resource_name", e.resourceName);
    facts := facts + Labelled("cs4", "resource_name", e.resourceName);
    extensions := AddStatus(extensions, facts, e);
  }

  method AddTwoRaw(extensions: seq<string>, ghost facts: seq<Pair>, k: string, v: string, k': string, v': string)
    returns (out: seq<string>)
    requires extensions == Written(facts) && PlainKeys(facts)
    requires PlainWord(k) && Plain(v) && PlainWord(k') && Plain(v')
    ensures out == Written(facts + [Pair(k, v), Pair(k', v')]) && PlainKeys(facts + [Pair(k, v), Pair(k', v')])
  {
    out := AddRaw(extensions, facts, k, v);
    out := AddRaw(out, facts + [Pair(k, v)], k', v');
    assert facts + [Pair(k, v), Pair(k', v')] == facts + [Pair(k, v)] + [Pair(k', v')];
  }

  method AddStatus(extensions: seq<string>, ghost facts: seq<Pair>, e: Event) returns (out: seq<string>)
    requires extensions == Written(facts) && PlainKeys(facts)
    ensures out == Written(facts + StatusFacts(e)) && PlainKeys(facts + StatusFacts(e))
  {
    RequestKeyWords();
    LabelWords();
    out := extensions;
    if e.status == 0 {
      assert facts + StatusFacts(e) == facts;
    } else {
      ItoaPlain(e.status);
      out := AddTwoRaw(out, facts, "cn1Label", "http_status", "cn1", Itoa(e.status));
    }
  }

  lemma HeaderChain(s: string)
    ensures EscapeHeader(s) == Escape(Header, s)
  {
    ChainIsPerCharacter(s);
  }

  lemma HeaderParts(a: string, b: string, c: string, d: string, e: string, f: string, g: string)
    requires Plain(a) && Plain(g)
    ensures EscapeFields([a, b, c, d, e, f, g]) ==
      [a, EscapeHeader(b), EscapeHeader(c), EscapeHeader(d), EscapeHeader(e), EscapeHeader(f), g]
  {
    PlainEscapesToItself(Header, a);
    HeaderChain(b);
    HeaderChain(c);
    HeaderChain(d);
    HeaderChain(e);
    HeaderChain(f);
    PlainEscapesToItself(Header, g);
  }

  method FormatHeader(version: string, signature: string, name: string, severity: nat) returns (header: string)
    ensures header == HeaderText([CEF, VENDOR, PRODUCT, version, signature, name, Itoa(severity)])
  {
    ItoaPlain(severity);
    HeaderParts(CEF, VENDOR, PRODUCT, version, signature, name, Itoa(severity));
    header := Piped([CEF, EscapeHeader(VENDOR), EscapeHeader(PRODUCT), EscapeHeader(version),
                     EscapeHeader(signature), EscapeHeader(name), Itoa(severity)]);
  }

  /** `CEFFormatter.Format`: nothing for no event, else a payload that reads back in full. */
  method Format(version: string, parseIp: string -> Option<string>, event: Option<Event>) returns (payload: string)
    requires PrintsPlain(parseIp)
    ensures event.None? ==> payload == ""
    ensures event.Some? ==>
      Read(payload) == Some(Contents(version, parseIp, event.value))
      && Tells(version, parseIp, event.value, Read(payload).value)
  {
    if event.None? {
      return "";
    }
    var e := event.value;
    var extensions := FormatExtension(parseIp, e);
    var header := FormatHeader(Or(TrimSpace(version), "dev"), Signature(e), Name(e), Severity(e));
    payload := header + Join(extensions);
    JoinWritten(Facts(parseIp, e));
    ReadPayload(Contents(version, parseIp, e));
    ContentsTell(version, parseIp, e);
  }
}
