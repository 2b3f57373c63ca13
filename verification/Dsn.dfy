/** The connection string as a printer for the keyword/value grammar of section 34.1.1.1 of the
    PostgreSQL 16 documentation, and a parser of that grammar it is proved against. */
module Dsn {
  import opened Values

  datatype Conn = Conn(host: string, port: int, database: string, username: string, password: string)

  datatype Setting = Setting(key: string, value: string)

  // ----- printing -----

  predicate NeedsEscape(c: char) {
    c == '\'' || c == '\\'
  }

  function EscapeChar(c: char): string {
    if NeedsEscape(c) then ['\\', c] else [c]
  }

  function Escape(v: string): string {
    if v == "" then "" else EscapeChar(v[0]) + Escape(v[1..])
  }

  function Quote(v: string): string {
    "'" + Escape(v) + "'"
  }

  method QuoteKV(v: string) returns (quoted: string)
    ensures quoted == Quote(v)
  {
    quoted := "'";
    for i := 0 to |v|
      invariant quoted == "'" + Escape(v[..i])
    {
      if v[i] == '\'' || v[i] == '\\' {
        quoted := quoted + "\\";
      }
      quoted := quoted + [v[i]];
      EscapeAppend(v[..i], [v[i]]);
      assert v[..i + 1] == v[..i] + [v[i]];
      assert Escape([v[i]]) == EscapeChar(v[i]) + Escape([v[i]][1..]);
    }
    assert v[..|v|] == v;
    quoted := quoted + "'";
  }

  lemma {:induction false} EscapeAppend(a: string, b: string)
    ensures Escape(a + b) == Escape(a) + Escape(b)
  {
    if a == "" {
      assert a + b == b;
    } else {
      assert (a + b)[1..] == a[1..] + b;
      EscapeAppend(a[1..], b);
    }
  }

  /** %d */
  function Decimal(n: int): string {
    if n < 0 then "-" + Digits(-n) else Digits(n)
  }

  function Digit(d: int): char
    requires 0 <= d < 10
  {
    '0' + d as char
  }

  function Digits(n: nat): string {
    if n < 10 then [Digit(n)] else Digits(n / 10) + [Digit(n % 10)]
  }

  /** Keyword/value form, with every free-form value quoted. */
  function DSN(c: Conn): string {
    "host=" + (Quote(c.host)
    + (" port=" + (Decimal(c.port)
    + (" dbname=" + (Quote(c.database)
    + (" user=" + (Quote(c.username)
    + (" password=" + (Quote(c.password)
    + " sslmode=require connect_timeout=10")))))))))
  }

  // ----- the grammar -----

  predicate IsSpace(c: char) {
    c == ' ' || c == '\t' || c == '\n' || c == '\r' || c == '\U{0B}' || c == '\U{0C}'
  }

  function SkipSpaces(s: string): (rest: string)
    ensures |rest| <= |s|
  {
    if s != "" && IsSpace(s[0]) then SkipSpaces(s[1..]) else s
  }

  datatype Token = Token(text: string, rest: string)

  /** A keyword: everything up to an equal sign or a space. */
  function Keyword(s: string): (t: Token)
    ensures |t.rest| <= |s|
  {
    if s == "" || s[0] == '=' || IsSpace(s[0]) then Token("", s)
    else
      var t := Keyword(s[1..]);
      Token([s[0]] + t.text, t.rest)
  }

  /** A quoted value, after its opening quote: a backslash makes the next character literal. */
  function Unquote(s: string): (t: Option<Token>)
    ensures t.Some? ==> |t.value.rest| < |s|
  {
    if s == "" then None
    else if s[0] == '\'' then Some(Token("", s[1..]))
    else
      var skip := if s[0] == '\\' then 1 else 0;
      if |s| <= skip then None
      else
        match Unquote(s[skip + 1..])
        case None => None
        case Some(t) => Some(Token([s[skip]] + t.text, t.rest))
  }

  /** An unquoted value: up to a space, with the same meaning of a backslash. */
  function Bare(s: string): (t: Option<Token>)
    ensures t.Some? ==> |t.value.rest| <= |s|
  {
    if s == "" || IsSpace(s[0]) then Some(Token("", s))
    else
      var skip := if s[0] == '\\' then 1 else 0;
      if |s| <= skip then None
      else
        match Bare(s[skip + 1..])
        case None => None
        case Some(t) => Some(Token([s[skip]] + t.text, t.rest))
  }

  function Value(s: string): (t: Option<Token>)
    ensures t.Some? ==> |t.value.rest| <= |s|
  {
    if s != "" && s[0] == '\'' then Unquote(s[1..]) else Bare(s)
  }

  /** keyword = value settings separated by spaces; spaces around the equal sign are optional. */
  function Parse(s: string): Option<seq<Setting>>
    decreases |s|
  {
    var start := SkipSpaces(s);
    if start == "" then Some([])
    else
      var key := Keyword(start);
      var afterKey := SkipSpaces(key.rest);
      if key.text == "" || afterKey == "" || afterKey[0] != '=' then None
      else
        match Value(SkipSpaces(afterKey[1..]))
        case None => None
        case Some(value) =>
          match Parse(value.rest)
          case None => None
          case Some(settings) => Some([Setting(key.text, value.text)] + settings)
  }

  function ParseDigits(s: string): Option<nat> {
    if s == "" then None
    else
      var n := |s| - 1;
      if !('0' <= s[n] <= '9') then None
      else if n == 0 then Some(s[0] as int - '0' as int)
      else
        match ParseDigits(s[..n])
        case None => None
        case Some(high) => Some(10 * high + (s[n] as int - '0' as int))
  }

  function ParseDecimal(s: string): Option<int> {
    var negative := s != "" && s[0] == '-';
    match ParseDigits(if negative then s[1..] else s)
    case None => None
    case Some(n) =>
      var magnitude: int := n;
      Some(if negative then -magnitude else magnitude)
  }

  // ----- round trips -----

  /** Unquoting undoes quoting, whatever the value and whatever follows. */
  lemma {:induction false} UnquoteQuoted(v: string, rest: string)
    ensures Unquote(Escape(v) + "'" + rest) == Some(Token(v, rest))
  {
    var s := Escape(v) + "'" + rest;
    if v == "" {
      assert s[1..] == rest;
    } else {
      UnquoteQuoted(v[1..], rest);
      assert s == EscapeChar(v[0]) + (Escape(v[1..]) + "'" + rest);
      assert s[|EscapeChar(v[0])|..] == Escape(v[1..]) + "'" + rest;
      assert v == [v[0]] + v[1..];
    }
  }

  predicate PlainKeyword(key: string) {
    key != "" && forall i :: 0 <= i < |key| ==> key[i] != '=' && !IsSpace(key[i])
  }

  predicate PlainValue(v: string) {
    v != "" && forall i :: 0 <= i < |v| ==> !NeedsEscape(v[i]) && !IsSpace(v[i])
  }

  predicate Ended(rest: string) {
    rest == "" || IsSpace(rest[0])
  }

  lemma {:induction false} KeywordPlain(key: string, rest: string)
    requires forall i :: 0 <= i < |key| ==> key[i] != '=' && !IsSpace(key[i])
    ensures Keyword(key + "=" + rest) == Token(key, "=" + rest)
  {
    var s := key + "=" + rest;
    if key == "" {
      assert s == "=" + rest;
    } else {
      KeywordPlain(key[1..], rest);
      assert s[1..] == key[1..] + "=" + rest;
      assert key == [key[0]] + key[1..];
    }
  }

  lemma {:induction false} BarePlain(v: string, rest: string)
    requires forall i :: 0 <= i < |v| ==> !NeedsEscape(v[i]) && !IsSpace(v[i])
    requires Ended(rest)
    ensures Bare(v + rest) == Some(Token(v, rest))
  {
    if v == "" {
      assert v + rest == rest;
    } else {
      BarePlain(v[1..], rest);
      assert (v + rest)[1..] == v[1..] + rest;
      assert v == [v[0]] + v[1..];
    }
  }

  lemma ParseSpace(s: string)
    ensures Parse(" " + s) == Parse(s)
  {
  }

  function Prepend(setting: Setting, settings: Option<seq<Setting>>): Option<seq<Setting>> {
    match settings
    case None => None
    case Some(more) => Some([setting] + more)
  }

  lemma ParseKeyValue(s: string, key: string, tail: string, value: string, rest: string)
    requires s != "" && !IsSpace(s[0]) && key != ""
    requires Keyword(s) == Token(key, "=" + tail)
    requires tail != "" && !IsSpace(tail[0]) && Value(tail) == Some(Token(value, rest))
    ensures Parse(s) == Prepend(Setting(key, value), Parse(rest))
  {
  }

  lemma ParseSetting(key: string, text: string, value: string, rest: string)
    requires PlainKeyword(key)
    requires text != "" && !IsSpace(text[0])
    requires Value(text + rest) == Some(Token(value, rest))
    ensures Parse(key + "=" + text + rest) == Prepend(Setting(key, value), Parse(rest))
  {
    var s := key + "=" + (text + rest);
    assert key + "=" + text + rest == s;
    KeywordPlain(key, text + rest);
    assert s[0] == key[0];
    ParseKeyValue(s, key, text + rest, value, rest);
  }

  lemma ParseQuotedSetting(key: string, v: string, rest: string)
    requires PlainKeyword(key)
    ensures Parse(key + "=" + Quote(v) + rest) == Prepend(Setting(key, v), Parse(rest))
  {
    UnquoteQuoted(v, rest);
    assert (Quote(v) + rest)[1..] == Escape(v) + "'" + rest;
    ParseSetting(key, Quote(v), v, rest);
  }

  lemma ParseBareSetting(key: string, v: string, rest: string)
    requires PlainKeyword(key) && PlainValue(v) && Ended(rest)
    ensures Parse(key + "=" + v + rest) == Prepend(Setting(key, v), Parse(rest))
  {
    BarePlain(v, rest);
    assert (v + rest)[0] == v[0];
    ParseSetting(key, v, v, rest);
  }

  lemma {:induction false} DigitsPlain(n: nat)
    ensures PlainValue(Digits(n)) && forall i :: 0 <= i < |Digits(n)| ==> '0' <= Digits(n)[i] <= '9'
    ensures ParseDigits(Digits(n)) == Some(n)
  {
    if n >= 10 {
      DigitsPlain(n / 10);
      assert Digits(n)[..|Digits(n)| - 1] == Digits(n / 10);
    }
  }

  lemma DecimalPlain(n: int)
    ensures PlainValue(Decimal(n))
  {
    DigitsPlain(if n < 0 then -n else n);
  }

  lemma DecimalRoundTrip(n: int)
    ensures ParseDecimal(Decimal(n)) == Some(n)
  {
    DigitsPlain(if n < 0 then -n else n);
    if n < 0 {
      assert Decimal(n)[1..] == Digits(-n);
    } else {
      assert Decimal(n)[0] >= '0';
    }
  }

  /** A setting as it is printed: the value either quoted or as it stands. */
  datatype Item = Quoted(key: string, value: string) | Plain(key: string, value: string)

  function Text(item: Item): string {
    if item.Quoted? then Quote(item.value) else item.value
  }

  datatype Line = End | More(item: Item, rest: Line)

  /** The items, each after a space. */
  function Print(line: Line): string {
    match line
    case End => ""
    case More(item, rest) => " " + (item.key + ("=" + (Text(item) + Print(rest))))
  }

  function SettingsOf(line: Line): seq<Setting> {
    match line
    case End => []
    case More(item, rest) => [Setting(item.key, item.value)] + SettingsOf(rest)
  }

  predicate PrintableItem(item: Item) {
    PlainKeyword(item.key) && (item.Plain? ==> PlainValue(item.value))
  }

  predicate Printable(line: Line) {
    line.More? ==> PrintableItem(line.item) && Printable(line.rest)
  }

  lemma ParseItem(item: Item, rest: string)
    requires PrintableItem(item) && Ended(rest)
    ensures Parse(item.key + ("=" + (Text(item) + rest))) == Prepend(Setting(item.key, item.value), Parse(rest))
  {
    assert item.key + "=" + Text(item) + rest == item.key + ("=" + (Text(item) + rest));
    if item.Quoted? {
      ParseQuotedSetting(item.key, item.value, rest);
    } else {
      ParseBareSetting(item.key, item.value, rest);
    }
  }

  /** Any list of settings survives printing and parsing. */
  lemma {:induction false} PrintRoundTrip(line: Line)
    requires Printable(line)
    ensures Parse(Print(line)) == Some(SettingsOf(line))
  {
    match line
    case End => assert Parse("") == Some([]);
    case More(item, rest) =>
      PrintRoundTrip(rest);
      ParseItem(item, Print(rest));
      ParseSpace(item.key + ("=" + (Text(item) + Print(rest))));
  }

  // The connection string's items, from its end.

  function Fixed(): Line {
    More(Plain("sslmode", "require"), More(Plain("connect_timeout", "10"), End))
  }

  function Credentials(c: Conn): Line {
    More(Quoted("user", c.username), More(Quoted("password", c.password), Fixed()))
  }

  function Line7(c: Conn): Line {
    var database := More(Quoted("dbname", c.database), Credentials(c));
    More(Quoted("host", c.host), More(Plain("port", Decimal(c.port)), database))
  }

  lemma FixedPrintable()
    ensures Printable(Fixed())
  {
    assert PlainKeyword("sslmode") && PlainKeyword("connect_timeout");
    assert PlainValue("require") && PlainValue("10");
  }

  lemma LinePrintable(c: Conn)
    ensures Printable(Line7(c))
  {
    FixedPrintable();
    assert PlainKeyword("user") && PlainKeyword("password");
    assert Printable(Credentials(c));
    DecimalPlain(c.port);
    assert PlainKeyword("host") && PlainKeyword("port") && PlainKeyword("dbname");
  }

  lemma PrintMore(item: Item, rest: Line, prefix: string)
    requires prefix == " " + item.key + "="
    ensures Print(More(item, rest)) == prefix + (Text(item) + Print(rest))
  {
    var tail := Text(item) + Print(rest);
    Regroup(" ", item.key, "=" + tail);
    Regroup(" " + item.key, "=", tail);
  }

  lemma Regroup(a: string, b: string, c: string)
    ensures a + (b + c) == (a + b) + c
  {
  }

  lemma PrintTimeout()
    ensures Print(More(Plain("connect_timeout", "10"), End)) == " connect_timeout=10"
  {
    PrintMore(Plain("connect_timeout", "10"), End, " connect_timeout=");
    assert Text(Plain("connect_timeout", "10")) + Print(End) == "10";
    assert " connect_timeout=" + "10" == " connect_timeout=10";
  }

  lemma ModeText()
    ensures " sslmode=" + "require" == " sslmode=require"
  {
  }

  lemma PrintMode(rest: Line)
    ensures Print(More(Plain("sslmode", "require"), rest)) == " sslmode=require" + Print(rest)
  {
    PrintMore(Plain("sslmode", "require"), rest, " sslmode=");
    Regroup(" sslmode=", "require", Print(rest));
    ModeText();
  }

  lemma PrintFixed()
    ensures Print(Fixed()) == " sslmode=require connect_timeout=10"
  {
    PrintMode(More(Plain("connect_timeout", "10"), End));
    PrintTimeout();
  }

  lemma PrintCredentials(c: Conn)
    ensures Print(Credentials(c))
         == " user=" + (Quote(c.username) + (" password=" + (Quote(c.password) + Print(Fixed()))))
  {
    PrintMore(Quoted("password", c.password), Fixed(), " password=");
    PrintMore(Quoted("user", c.username), More(Quoted("password", c.password), Fixed()), " user=");
  }

  /** The format is the printed items, but for the space before the first. */
  lemma DsnIsPrint(c: Conn)
    ensures Print(Line7(c)) == " " + DSN(c)
  {
    var database := More(Quoted("dbname", c.database), Credentials(c));
    var port := More(Plain("port", Decimal(c.port)), database);
    PrintFixed();
    PrintCredentials(c);
    PrintMore(Quoted("dbname", c.database), Credentials(c), " dbname=");
    PrintMore(Plain("port", Decimal(c.port)), database, " port=");
    PrintMore(Quoted("host", c.host), port, " host=");
    SpaceOff(Quote(c.host) + Print(port));
  }

  lemma SpaceOff(rest: string)
    ensures " host=" + rest == " " + ("host=" + rest)
  {
  }

  /** The settings a connection is meant to give, in order. */
  function Settings(c: Conn): seq<Setting> {
    [Setting("host", c.host), Setting("port", Decimal(c.port)), Setting("dbname", c.database),
     Setting("user", c.username), Setting("password", c.password),
     Setting("sslmode", "require"), Setting("connect_timeout", "10")]
  }

  lemma LineSettings(c: Conn)
    ensures SettingsOf(Line7(c)) == Settings(c)
  {
    assert SettingsOf(Fixed()) == [Setting("sslmode", "require"), Setting("connect_timeout", "10")];
    assert SettingsOf(Credentials(c)) == [Setting("user", c.username), Setting("password", c.password)]
                                         + SettingsOf(Fixed());
    var database := More(Quoted("dbname", c.database), Credentials(c));
    assert SettingsOf(Line7(c)) == [Setting("host", c.host), Setting("port", Decimal(c.port))] + SettingsOf(database);
  }

  /** Parsing the connection string gives back exactly the seven settings, with the original values,
      for every connection. */
  lemma DsnRoundTrip(c: Conn)
    ensures Parse(DSN(c)) == Some(Settings(c))
    ensures ParseDecimal(Settings(c)[1].value) == Some(c.port)
  {
    DsnIsPrint(c);
    LinePrintable(c);
    PrintRoundTrip(Line7(c));
    LineSettings(c);
    ParseSpace(DSN(c));
    DecimalRoundTrip(c.port);
  }
}
