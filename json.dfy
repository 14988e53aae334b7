/**
 * The JSON text of a command, as `JSON.stringify` writes it
 * (ECMA-262 section 25.5.2): the properties in insertion order, `action`
 * first; a property whose value is undefined is omitted; string values are
 * quoted with the escapes of QuoteJSONString, which produce a string literal
 * as section 7 of RFC 8259 defines it. A reader for the same texts is the
 * partner that shows the encoding loses nothing.
 *
 * Dafny characters are Unicode scalar values, so the lone surrogates that
 * QuoteJSONString also escapes cannot occur here.
 */
module Json {
  import opened Wrappers
  import opened Types

  /** Lower-case hexadecimal digit, as UnicodeEscape writes it. */
  function HexChar(k: nat): char
    requires k < 16
  {
    if k < 10 then ('0' as int + k) as char else ('a' as int + k - 10) as char
  }

  function HexValue(c: char): Option<nat> {
    if '0' <= c <= '9' then Some(c as int - '0' as int)
    else if 'a' <= c <= 'f' then Some(c as int - 'a' as int + 10)
    else if 'A' <= c <= 'F' then Some(c as int - 'A' as int + 10)
    else None
  }

  /** The escape QuoteJSONString writes for one character. */
  function EscapeChar(c: char): (e: string)
    ensures 1 <= |e|
    ensures forall i :: 0 <= i < |e| ==> e[i] as int >= 0x20
    ensures e[0] != '"'
    ensures |e| == 1 <==> e == [c]
  {
    if c == '"' then ['\\', '"']
    else if c == '\\' then ['\\', '\\']
    else if c as int == 0x08 then ['\\', 'b']
    else if c as int == 0x09 then ['\\', 't']
    else if c as int == 0x0A then ['\\', 'n']
    else if c as int == 0x0C then ['\\', 'f']
    else if c as int == 0x0D then ['\\', 'r']
    else if c as int < 0x20 then ['\\', 'u', '0', '0', HexChar(c as int / 16), HexChar(c as int % 16)]
    else [c]
  }

  function Escape(s: string): (e: string)
    ensures forall i :: 0 <= i < |e| ==> e[i] as int >= 0x20
    ensures |s| <= |e|
  {
    if s == [] then [] else EscapeChar(s[0]) + Escape(s[1..])
  }

  /** A JSON string literal holding `s`. */
  function Quote(s: string): string {
    ['"'] + Escape(s) + ['"']
  }

  /**
   * Decodes one escape sequence at the head of `s` (which starts with a
   * backslash): the character and the number of characters it spans.
   * Escapes naming a surrogate code unit are refused (no pairing).
   */
  function Unescape(s: string): (r: Option<(char, nat)>)
    requires 2 <= |s| && s[0] == '\\'
    ensures r.Some? ==> 2 <= r.value.1 <= |s|
  {
    match s[1]
    case '"' => Some(('"', 2))
    case '\\' => Some(('\\', 2))
    case '/' => Some(('/', 2))
    case 'b' => Some((0x08 as char, 2))
    case 'f' => Some((0x0C as char, 2))
    case 'n' => Some((0x0A as char, 2))
    case 'r' => Some((0x0D as char, 2))
    case 't' => Some((0x09 as char, 2))
    case 'u' =>
      if |s| < 6 then None
      else (
        match (HexValue(s[2]), HexValue(s[3]), HexValue(s[4]), HexValue(s[5]))
        case (Some(a), Some(b), Some(c), Some(d)) =>
          if a < 16 && b < 16 && c < 16 && d < 16 then
            var code := ((a * 16 + b) * 16 + c) * 16 + d;
            if 0xD800 <= code < 0xE000 then None else Some((code as char, 6))
          else None
        case _ => None)
    case _ => None
  }

  /**
   * Reads the rest of a string literal whose opening quote is already
   * consumed: the decoded characters and what follows the closing quote.
   */
  function ReadStringBody(s: string): (r: Option<(string, string)>)
    ensures r.Some? ==> |r.value.1| < |s|
    decreases |s|
  {
    if s == [] then None
    else if s[0] == '"' then Some(([], s[1..]))
    else if s[0] == '\\' then
      if |s| < 2 then None
      else match Unescape(s)
        case None => None
        case Some((c, n)) =>
          match ReadStringBody(s[n..])
          case None => None
          case Some((t, rest)) => Some(([c] + t, rest))
    else if s[0] as int < 0x20 then None
    else match ReadStringBody(s[1..])
      case None => None
      case Some((t, rest)) => Some(([s[0]] + t, rest))
  }

  const ActionHead: string := "{\"action\":\""
  const AddressHead: string := ",\"ipAddress\":\""

  /** `JSON.stringify(command)`. */
  function CommandJson(cmd: Command): (body: string)
    ensures ActionHead <= body && body[|body| - 1] == '}'
  {
    "{\"action\":" + Quote(cmd.action)
    + (match cmd.ipAddress
       case Some(ip) => ",\"ipAddress\":" + Quote(ip)
       case None => "")
    + "}"
  }

  /** Reads back the JSON text of a command: `action` first, then an optional `ipAddress`. */
  function ParseCommand(s: string): Option<Command> {
    if !(ActionHead <= s) then None
    else match ReadStringBody(s[|ActionHead|..])
      case None => None
      case Some((action, rest)) =>
        if rest == "}" then Some(Command(action, None))
        else if AddressHead <= rest then
          match ReadStringBody(rest[|AddressHead|..])
          case None => None
          case Some((ip, rest')) =>
            if rest' == "}" then Some(Command(action, Some(ip))) else None
        else None
  }

  /** Reading one escaped character gives it back and continues after it. */
  lemma ReadEscapeChar(c: char, t: string)
    ensures ReadStringBody(EscapeChar(c) + t) ==
      match ReadStringBody(t)
      case None => None
      case Some((u, rest)) => Some(([c] + u, rest))
  {
    var s := EscapeChar(c) + t;
    var e := EscapeChar(c);
    assert s[|e|..] == t;
    if |e| == 1 {
      assert s[1..] == t;
    } else if c as int < 0x20 && |e| == 6 {
      assert HexValue(HexChar(c as int / 16)) == Some(c as int / 16);
      assert HexValue(HexChar(c as int % 16)) == Some(c as int % 16);
      assert Unescape(s) == Some((c, 6));
    }
  }

  /** Round trip: the escaped text followed by a closing quote reads back as `s`. */
  lemma {:induction false} ReadStringBodyOfEscape(s: string, rest: string)
    ensures ReadStringBody(Escape(s) + ['"'] + rest) == Some((s, rest))
  {
    if s == [] {
      assert Escape(s) + ['"'] + rest == ['"'] + rest;
      assert (['"'] + rest)[1..] == rest;
    } else {
      var tail := Escape(s[1..]) + ['"'] + rest;
      assert Escape(s) + ['"'] + rest == EscapeChar(s[0]) + tail;
      ReadStringBodyOfEscape(s[1..], rest);
      ReadEscapeChar(s[0], tail);
      assert [s[0]] + s[1..] == s;
    }
  }

  /** Round trip: the JSON text of a command reads back as that command. */
  lemma CommandJsonRoundTrip(cmd: Command)
    ensures ParseCommand(CommandJson(cmd)) == Some(cmd)
  {
    var e := Escape(cmd.action);
    var tail := match cmd.ipAddress
      case Some(ip) => ",\"ipAddress\":" + Quote(ip)
      case None => "";
    KeyThenQuote("{\"action\":", cmd.action, tail + "}");
    assert CommandJson(cmd) == "{\"action\":" + Quote(cmd.action) + (tail + "}");
    var after := e + ['"'] + (tail + "}");
    assert CommandJson(cmd) == ActionHead + after;
    ReadAfterActionHead(ActionHead + after, after);
    ReadStringBodyOfEscape(cmd.action, tail + "}");
    if cmd.ipAddress.Some? {
      var ip := cmd.ipAddress.value;
      KeyThenQuote(",\"ipAddress\":", ip, "}");
      var after' := Escape(ip) + ['"'] + "}";
      assert tail + "}" == AddressHead + after';
      ReadStringBodyOfEscape(ip, "}");
      ReadAfterAddressHead(cmd.action, AddressHead + after', after');
    }
  }

  /** A key followed by a quoted value: the opening quote joins the key. */
  lemma KeyThenQuote(key: string, v: string, t: string)
    ensures key + Quote(v) + t == (key + ['"']) + (Escape(v) + ['"'] + t)
  {
  }

  lemma ReadAfterActionHead(s: string, after: string)
    requires s == ActionHead + after
    ensures ParseCommand(s) ==
      match ReadStringBody(after)
      case None => None
      case Some((action, rest)) =>
        if rest == "}" then Some(Command(action, None))
        else if AddressHead <= rest then
          match ReadStringBody(rest[|AddressHead|..])
          case None => None
          case Some((ip, rest')) =>
            if rest' == "}" then Some(Command(action, Some(ip))) else None
        else None
  {
    assert ActionHead <= s;
    assert s[|ActionHead|..] == after;
  }

  lemma ReadAfterAddressHead(action: string, rest: string, after: string)
    requires rest == AddressHead + after
    ensures rest != "}" && AddressHead <= rest && rest[|AddressHead|..] == after
  {
  }

  /** The `ipAddress` property is written exactly when it is defined. */
  lemma CommandJsonAddressIffDefined(cmd: Command)
    ensures cmd.ipAddress.None? <==> CommandJson(cmd) == "{\"action\":" + Quote(cmd.action) + "}"
  {
    if cmd.ipAddress.Some? {
      var ip := cmd.ipAddress.value;
      var a := "{\"action\":" + Quote(cmd.action);
      assert CommandJson(cmd) == a + (",\"ipAddress\":" + Quote(ip) + "}");
      assert |CommandJson(cmd)| > |a + "}"|;
    }
  }
}
