/** The RESP2 framing of a command: an array of bulk strings.
    A string stands for a run of bytes, one char a byte. */
module Resp {
  import opened Common
  import opened Decimal

  const CRLF: string := "\r\n"

  // ----- writing ------------------------------------------------------------

  function EncodeBulk(token: string): string {
    "$" + Itoa(|token|) + CRLF + token + CRLF
  }

  function EncodeBulks(tokens: seq<string>): string {
    if tokens == [] then [] else EncodeBulk(tokens[0]) + EncodeBulks(tokens[1..])
  }

  function Encode(cmd: seq<string>): string {
    "*" + Itoa(|cmd|) + CRLF + EncodeBulks(cmd)
  }

  /** The loop that builds a command in the source. */
  method EncodeCommand(cmd: seq<string>) returns (res: string)
    ensures res == Encode(cmd)
  {
    res := "*" + Itoa(|cmd|) + CRLF;
    ghost var header := res;
    assert cmd[0..] == cmd;
    for i := 0 to |cmd|
      invariant res + EncodeBulks(cmd[i..]) == header + EncodeBulks(cmd)
    {
      ghost var before := res;
      res := res + ("$" + Itoa(|cmd[i]|) + CRLF + cmd[i] + CRLF);
      assert cmd[i..][1..] == cmd[i + 1..];
      assert res + EncodeBulks(cmd[i + 1..]) == before + (EncodeBulk(cmd[i]) + EncodeBulks(cmd[i + 1..]));
    }
    assert res + [] == res;
  }

  lemma BulkExample()
    ensures EncodeBulk("GET") == "$3\r\nGET\r\n" && EncodeBulk("k") == "$1\r\nk\r\n"
  {
    assert Digits(1) == "1" && Digits(3) == "3";
  }

  lemma EncodeExample(cmd: seq<string>)
    requires cmd == ["GET", "k"]
    ensures Encode(cmd) == "*2\r\n$3\r\nGET\r\n$1\r\nk\r\n"
  {
    BulkExample();
    assert cmd[1..] == ["k"] && cmd[1..][1..] == [];
    assert EncodeBulks(["k"]) == "$1\r\nk\r\n";
    assert Itoa(2) == "2";
    assert "*2\r\n" + ("$3\r\nGET\r\n" + "$1\r\nk\r\n") == "*2\r\n$3\r\nGET\r\n$1\r\nk\r\n";
  }

  // ----- reading ------------------------------------------------------------

  datatype Line = NoLine | Line(text: string, rest: string)

  /** Everything up to the first CRLF. */
  function ReadLine(s: string): (r: Line)
    ensures r.Line? ==> |r.rest| < |s|
  {
    if |s| < 2 then NoLine
    else if s[..2] == CRLF then Line([], s[2..])
    else
      match ReadLine(s[1..])
      case NoLine => NoLine
      case Line(text, rest) => Line([s[0]] + text, rest)
  }

  datatype Header = NoHeader | Header(n: int, rest: string)

  /** A type byte followed by an integer line. */
  function ReadHeader(kind: char, s: string): (r: Header)
    ensures r.Header? ==> |r.rest| < |s|
  {
    if s == [] || s[0] != kind then NoHeader
    else
      match ReadLine(s[1..])
      case NoLine => NoHeader
      case Line(text, rest) =>
        match Atoi(text)
        case None => NoHeader
        case Some(n) => Header(n, rest)
  }

  datatype Bulk = NoBulk | Bulk(token: string, rest: string)

  function ReadBulk(s: string): (r: Bulk)
    ensures r.Bulk? ==> |r.rest| < |s|
  {
    match ReadHeader('$', s)
    case NoHeader => NoBulk
    case Header(n, rest) =>
      if n < 0 || |rest| < n + 2 || rest[n..n + 2] != CRLF then NoBulk
      else Bulk(rest[..n], rest[n + 2..])
  }

  datatype Read =
    | End
    | Malformed
    | Value(cmd: seq<string>, rest: string)

  function ReadBulks(s: string, n: nat): (r: Read)
    ensures !r.End?
    ensures r.Value? ==> |r.rest| <= |s| && |r.cmd| == n
    decreases n
  {
    if n == 0 then Value([], s)
    else
      match ReadBulk(s)
      case NoBulk => Malformed
      case Bulk(token, rest) =>
        match ReadBulks(rest, n - 1)
        case Value(cmd, rest') => Value([token] + cmd, rest')
        case _ => Malformed
  }

  function ReadValue(s: string): (r: Read)
    ensures r.End? <==> s == []
    ensures r.Value? ==> |r.rest| < |s|
  {
    if s == [] then End
    else
      match ReadHeader('*', s)
      case NoHeader => Malformed
      case Header(n, rest) => if n < 0 then Malformed else ReadBulks(rest, n)
  }

  /** The tokens of a message that holds one command and nothing else. */
  function Decode(message: string): Option<seq<string>> {
    match ReadValue(message)
    case Value(cmd, rest) => if rest == [] then Some(cmd) else None
    case _ => None
  }

  // ----- reading undoes writing -----------------------------------------------

  lemma {:induction false} ReadLineOf(text: string, rest: string)
    requires '\r' !in text
    ensures ReadLine(text + CRLF + rest) == Line(text, rest)
  {
    var s := text + CRLF + rest;
    if text == [] {
      assert s[2..] == rest;
    } else {
      assert s[0] != '\r' && s[..2][0] == s[0];
      assert s[1..] == text[1..] + CRLF + rest;
      ReadLineOf(text[1..], rest);
      assert [text[0]] + text[1..] == text;
    }
  }

  lemma ReadHeaderOf(kind: char, n: int, rest: string)
    requires MIN_INT64 <= n <= MAX_INT64
    ensures ReadHeader(kind, [kind] + Itoa(n) + CRLF + rest) == Header(n, rest)
  {
    var s := [kind] + Itoa(n) + CRLF + rest;
    ItoaLength(n);
    assert s[1..] == Itoa(n) + CRLF + rest;
    ReadLineOf(Itoa(n), rest);
    ItoaRoundTrip(n);
  }

  lemma ReadBulkOf(token: string, rest: string)
    requires |token| <= MAX_INT64
    ensures ReadBulk(EncodeBulk(token) + rest) == Bulk(token, rest)
  {
    var body := token + CRLF + rest;
    assert EncodeBulk(token) + rest == ['$'] + Itoa(|token|) + CRLF + body;
    ReadHeaderOf('$', |token|, body);
    assert body[..|token|] == token;
    assert body[|token|..|token| + 2] == CRLF;
    assert body[|token| + 2..] == rest;
  }

  /** The lengths that a Go `int` can hold; memory holds nothing longer. */
  predicate Representable(cmd: seq<string>) {
    |cmd| <= MAX_INT64 && forall i :: 0 <= i < |cmd| ==> |cmd[i]| <= MAX_INT64
  }

  lemma {:induction false} ReadBulksOf(cmd: seq<string>, rest: string)
    requires forall i :: 0 <= i < |cmd| ==> |cmd[i]| <= MAX_INT64
    ensures ReadBulks(EncodeBulks(cmd) + rest, |cmd|) == Value(cmd, rest)
  {
    if cmd == [] {
      assert EncodeBulks(cmd) + rest == rest;
    } else {
      var tail := EncodeBulks(cmd[1..]) + rest;
      assert EncodeBulks(cmd) + rest == EncodeBulk(cmd[0]) + tail;
      ReadBulkOf(cmd[0], tail);
      ReadBulksOf(cmd[1..], rest);
      assert [cmd[0]] + cmd[1..] == cmd;
    }
  }

  /** Whatever bytes the tokens hold, CRLF included, and whatever follows the
      frame, the reader gives back the tokens and stops at the end of the frame. */
  lemma ReadValueOf(cmd: seq<string>, rest: string)
    requires Representable(cmd)
    ensures ReadValue(Encode(cmd) + rest) == Value(cmd, rest)
  {
    assert Encode(cmd) + rest == ['*'] + Itoa(|cmd|) + CRLF + (EncodeBulks(cmd) + rest);
    ReadHeaderOf('*', |cmd|, EncodeBulks(cmd) + rest);
    ReadBulksOf(cmd, rest);
  }

  /** No two commands share a frame, and no frame is a proper prefix of another. */
  lemma EncodePrefixFree(cmd: seq<string>, cmd': seq<string>, rest: string, rest': string)
    requires Representable(cmd) && Representable(cmd')
    requires Encode(cmd) + rest == Encode(cmd') + rest'
    ensures cmd == cmd' && rest == rest'
  {
    ReadValueOf(cmd, rest);
    ReadValueOf(cmd', rest');
  }

  lemma DecodeOf(cmd: seq<string>)
    requires Representable(cmd)
    ensures Decode(Encode(cmd)) == Some(cmd)
  {
    ReadValueOf(cmd, []);
    assert Encode(cmd) + [] == Encode(cmd);
  }
}
