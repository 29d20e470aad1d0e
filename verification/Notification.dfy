/** The JSON text of a notification, sections 7 and 4 of RFC 8259, and its trip through the event stream. */
module Notification {
  import opened Wrappers
  import opened EventStream

  /** What `send` is given; `stamp` is the text of the clock reading. */
  datatype Notice = Notice(title: string, content: string, stamp: string)

  const DIGITS := "0123456789abcdef"

  function Ascii(n: nat): char
    requires n < 128
  {
    n as char
  }

  /** The short escape letters and the characters they stand for. */
  function ShortEscape(c: char): Option<char> {
    if c == '"' then Some('"')
    else if c == '\\' then Some('\\')
    else if c == '\n' then Some('n')
    else if c == '\r' then Some('r')
    else if c == '\t' then Some('t')
    else if c == Ascii(12) then Some('f')
    else if c == Ascii(8) then Some('b')
    else None
  }

  /** `json.dumps` of one character with `ensure_ascii=False`. */
  function Escape(c: char): string {
    match ShortEscape(c)
    case Some(e) => ['\\', e]
    case None =>
      if c < ' ' then ['\\', 'u', '0', '0', DIGITS[c as int / 16], DIGITS[c as int % 16]] else [c]
  }

  function EscapeAll(s: string): string {
    if s == "" then "" else Escape(s[0]) + EscapeAll(s[1..])
  }

  function Quote(s: string): string {
    "\"" + EscapeAll(s) + "\""
  }

  const TITLE := "{\"title\": "
  const CONTENT := ", \"content\": "
  const STAMP := ", \"timestamp\": "

  /** The text `send` publishes. */
  function Encode(n: Notice): string {
    TITLE + (Quote(n.title) + (CONTENT + (Quote(n.content) + (STAMP + (n.stamp + "}")))))
  }

  // ------------------------------------------------ the reader

  function HexValue(c: char): Option<nat> {
    if '0' <= c <= '9' then Some(c as int - '0' as int)
    else if 'a' <= c <= 'f' then Some(c as int - 'a' as int + 10)
    else if 'A' <= c <= 'F' then Some(c as int - 'A' as int + 10)
    else None
  }

  function Unescaped(e: char): Option<char> {
    if e == '"' || e == '\\' || e == '/' then Some(e)
    else if e == 'n' then Some('\n')
    else if e == 'r' then Some('\r')
    else if e == 't' then Some('\t')
    else if e == 'f' then Some(Ascii(12))
    else if e == 'b' then Some(Ascii(8))
    else None
  }

  /** The value of a `\u` escape below 256; no higher one is ever written. */
  function UnicodeEscape(s: string): Option<char>
    requires |s| == 4
  {
    match (HexValue(s[2]), HexValue(s[3]))
    case (Some(high), Some(low)) => if s[0] == '0' && s[1] == '0' then Some((high * 16 + low) as char) else None
    case _ => None
  }

  /** The character at the head of a string literal and what follows it. */
  function ReadChar(s: string): (r: Option<(char, string)>)
    requires s != ""
    ensures r.Some? ==> |r.value.1| < |s|
  {
    if s[0] == '"' || s[0] < ' ' then None
    else if s[0] != '\\' then Some((s[0], s[1..]))
    else if |s| >= 6 && s[1] == 'u' then
      match UnicodeEscape(s[2..6])
      case Some(c) => Some((c, s[6..]))
      case None => None
    else if |s| >= 2 then
      match Unescaped(s[1])
      case Some(c) => Some((c, s[2..]))
      case None => None
    else None
  }

  /** The literal whose opening quote has been read, and what follows its closing quote. */
  function ReadString(s: string): Option<(string, string)>
    decreases |s|
  {
    if s == "" then None
    else if s[0] == '"' then Some(("", s[1..]))
    else
      match ReadChar(s)
      case None => None
      case Some((c, rest)) =>
        match ReadString(rest)
        case None => None
        case Some((t, after)) => Some(([c] + t, after))
  }

  function Skip(prefix: string, s: string): Option<string> {
    if prefix <= s then Some(s[|prefix|..]) else None
  }

  function ReadQuoted(prefix: string, s: string): Option<(string, string)> {
    match Skip(prefix, s)
    case None => None
    case Some(rest) => if rest != "" && rest[0] == '"' then ReadString(rest[1..]) else None
  }

  /** The object with these three members. */
  function Decode(s: string): Option<Notice> {
    match ReadQuoted(TITLE, s)
    case None => None
    case Some((title, s1)) =>
      match ReadQuoted(CONTENT, s1)
      case None => None
      case Some((content, s2)) =>
        match Skip(STAMP, s2)
        case Some(s3) =>
          if s3 != "" && s3[|s3| - 1] == '}' then Some(Notice(title, content, s3[..|s3| - 1])) else None
        case None => None
  }

  // ------------------------------------------------ round trip

  lemma ReadEscape(c: char, rest: string)
    ensures Escape(c) != "" && Escape(c)[0] != '"' && ReadChar(Escape(c) + rest) == Some((c, rest))
  {
    var s := Escape(c) + rest;
    if ShortEscape(c).Some? {
      assert s[2..] == rest;
    } else if c < ' ' {
      HexDigits(c as int);
      assert s[2..6] == Escape(c)[2..];
      assert s[6..] == rest;
    } else {
      assert s[1..] == rest;
    }
  }

  lemma HexDigits(n: nat)
    requires n < 32
    ensures HexValue(DIGITS[n / 16]) == Some(n / 16) && HexValue(DIGITS[n % 16]) == Some(n % 16)
  {
    HexDigit(n / 16);
    HexDigit(n % 16);
  }

  lemma HexDigit(d: nat)
    requires d < 16
    ensures HexValue(DIGITS[d]) == Some(d)
  {
  }

  lemma ReadOneMore(c: char, s: string, t: string, rest: string)
    requires ReadString(s) == Some((t, rest))
    ensures ReadString(Escape(c) + s) == Some(([c] + t, rest))
  {
    ReadEscape(c, s);
  }

  lemma EscapeAllThen(t: string, tail: string)
    requires t != ""
    ensures EscapeAll(t) + tail == Escape(t[0]) + (EscapeAll(t[1..]) + tail)
  {
    var a, b := Escape(t[0]), EscapeAll(t[1..]);
    assert a + b + tail == a + (b + tail);
  }

  lemma ReadClosing(rest: string)
    ensures ReadString("\"" + rest) == Some(("", rest))
  {
    assert ("\"" + rest)[1..] == rest;
  }

  lemma {:induction false} ReadBack(t: string, rest: string)
    ensures ReadString(EscapeAll(t) + ("\"" + rest)) == Some((t, rest))
    decreases |t|
  {
    var tail := "\"" + rest;
    if t == "" {
      ReadClosing(rest);
      assert EscapeAll(t) + tail == tail;
    } else {
      ReadBack(t[1..], rest);
      ReadOneMore(t[0], EscapeAll(t[1..]) + tail, t[1..], rest);
      EscapeAllThen(t, tail);
      assert [t[0]] + t[1..] == t;
    }
  }

  lemma ReadQuotedBack(prefix: string, t: string, rest: string)
    ensures ReadQuoted(prefix, prefix + (Quote(t) + rest)) == Some((t, rest))
  {
    var s := Quote(t) + rest;
    assert (prefix + s)[|prefix|..] == s;
    assert s[1..] == EscapeAll(t) + ("\"" + rest);
    ReadBack(t, rest);
  }

  /** The escapes of section 7 of RFC 8259; U+007F and beyond stay as they are. */
  lemma EscapeExamples()
    ensures Escape('"') == "\\\"" && Escape('\\') == "\\\\" && Escape('\n') == "\\n" && Escape('\r') == "\\r"
    ensures Escape('\t') == "\\t" && Escape(Ascii(8)) == "\\b" && Escape(Ascii(12)) == "\\f"
    ensures Escape(Ascii(0)) == "\\u0000" && Escape(Ascii(31)) == "\\u001f" && Escape(Ascii(127)) == [Ascii(127)]
  {
  }

  /** The members and their order, as JSON text. */
  lemma EncodeForm(n: Notice)
    ensures Encode(n) == "{\"title\": " + (("\"" + EscapeAll(n.title) + "\"")
                         + (", \"content\": " + (("\"" + EscapeAll(n.content) + "\"")
                         + (", \"timestamp\": " + (n.stamp + "}")))))
  {
  }

  /** Whatever is in its texts, a notification decodes to itself. */
  lemma DecodeEncode(n: Notice)
    ensures Decode(Encode(n)) == Some(n)
  {
    var s3 := n.stamp + "}";
    var s2 := STAMP + s3;
    var s1 := CONTENT + (Quote(n.content) + s2);
    ReadQuotedBack(TITLE, n.title, s1);
    ReadQuotedBack(CONTENT, n.content, s2);
    assert s2[|STAMP|..] == s3;
    assert s3[..|s3| - 1] == n.stamp;
  }

  lemma EscapeOneLine(c: char)
    ensures OneLine(Escape(c))
  {
  }

  lemma OneLineConcat(a: string, b: string)
    ensures OneLine(a + b) <==> OneLine(a) && OneLine(b)
  {
    if OneLine(a + b) {
      assert forall i :: 0 <= i < |a| ==> a[i] == (a + b)[i];
      assert forall i :: 0 <= i < |b| ==> b[i] == (a + b)[|a| + i];
    }
  }

  lemma {:induction false} EscapeAllOneLine(t: string)
    ensures OneLine(EscapeAll(t))
    decreases |t|
  {
    if t != "" {
      EscapeOneLine(t[0]);
      EscapeAllOneLine(t[1..]);
      OneLineConcat(Escape(t[0]), EscapeAll(t[1..]));
    }
  }

  lemma QuoteOneLine(t: string)
    ensures OneLine(Quote(t))
  {
    EscapeAllOneLine(t);
  }

  /** Titles and contents may have newlines; the published text never has, unless the clock's text does. */
  lemma EncodeOneLine(n: Notice)
    ensures OneLine(Encode(n)) <==> OneLine(n.stamp)
  {
    var s3 := n.stamp + "}";
    var s2 := STAMP + s3;
    var s1 := Quote(n.content) + s2;
    QuoteOneLine(n.title);
    QuoteOneLine(n.content);
    OneLineConcat(n.stamp, "}");
    OneLineConcat(STAMP, s3);
    assert OneLine(s2) <==> OneLine(n.stamp);
    OneLineConcat(Quote(n.content), s2);
    OneLineConcat(CONTENT, s1);
    assert OneLine(CONTENT + s1) <==> OneLine(s2);
    OneLineConcat(Quote(n.title), CONTENT + s1);
    OneLineConcat(TITLE, Quote(n.title) + (CONTENT + s1));
  }

  // ------------------------------------------------ through the stream

  /** One round of a subscription: a published notification, or none within the timeout. */
  function Round(r: Option<Notice>): Poll {
    match r
    case Some(n) => Message(Encode(n))
    case None => Quiet
  }

  function Rounds(rs: seq<Option<Notice>>): seq<Poll> {
    if rs == [] then [] else [Round(rs[0])] + Rounds(rs[1..])
  }

  function Sent(rs: seq<Option<Notice>>): seq<Notice> {
    if rs == [] then []
    else if rs[0].Some? then [rs[0].value] + Sent(rs[1..])
    else Sent(rs[1..])
  }

  function DecodeAll(texts: seq<string>): seq<Option<Notice>> {
    if texts == [] then [] else [Decode(texts[0])] + DecodeAll(texts[1..])
  }

  function Somes(ns: seq<Notice>): seq<Option<Notice>> {
    if ns == [] then [] else [Some(ns[0])] + Somes(ns[1..])
  }

  lemma {:induction false} RoundsDecode(rs: seq<Option<Notice>>)
    requires forall r :: r in rs && r.Some? ==> OneLine(r.value.stamp)
    ensures SingleLine(Rounds(rs)) && DecodeAll(Payloads(Rounds(rs))) == Somes(Sent(rs))
    decreases |rs|
  {
    if rs != [] {
      RoundsDecode(rs[1..]);
      var polls := Rounds(rs);
      assert polls[0] == Round(rs[0]) && polls[1..] == Rounds(rs[1..]);
      SingleLineCons(polls);
      if rs[0].Some? {
        var text := Encode(rs[0].value);
        EncodeOneLine(rs[0].value);
        DecodeEncode(rs[0].value);
        assert Payloads(polls) == [text] + Payloads(polls[1..]);
        assert Payloads(polls)[1..] == Payloads(polls[1..]);
        assert Sent(rs)[1..] == Sent(rs[1..]);
      } else {
        assert Payloads(polls) == Payloads(polls[1..]);
      }
    }
  }

  /** The far end decodes exactly the notifications sent, in order, whatever newlines, quotes or controls they hold. */
  lemma NotificationsArrive(rs: seq<Option<Notice>>)
    requires forall r :: r in rs && r.Some? ==> OneLine(r.value.stamp)
    ensures DecodeAll(Data(Feed(OPENED, Wire(Rounds(rs))).events)) == Somes(Sent(rs))
  {
    RoundsDecode(rs);
    StreamFaithfulExactly(Rounds(rs));
  }
}
