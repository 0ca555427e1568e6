/** JSON text (RFC 8259): a recognizer for values (sections 2 to 7) and for what follows them. */
module JsonText {
  import opened JsonTree

  predicate IsWs(c: char) {
    c == ' ' || c == '\t' || c == '\n' || c == '\r'
  }

  predicate IsDigit(c: char) {
    '0' <= c <= '9'
  }

  predicate IsHex(c: char) {
    '0' <= c <= '9' || 'a' <= c <= 'f' || 'A' <= c <= 'F'
  }

  predicate Starts(s: string, c: char) {
    s != "" && s[0] == c
  }

  function SkipWs(s: string): (r: string)
    ensures |r| <= |s|
  {
    if s != "" && IsWs(s[0]) then SkipWs(s[1..]) else s
  }

  function SkipDigits(s: string): (r: string)
    ensures |r| <= |s|
  {
    if s != "" && IsDigit(s[0]) then SkipDigits(s[1..]) else s
  }

  // ---------------------------------------------------------------- numbers (section 6)

  function SkipInt(s: string): (r: Option<string>)
    ensures r.Some? ==> |r.value| < |s|
  {
    if s == "" || !IsDigit(s[0]) then None
    else if s[0] == '0' then Some(s[1..])
    else Some(SkipDigits(s[1..]))
  }

  function SkipFrac(s: string): (r: Option<string>)
    ensures r.Some? ==> |r.value| <= |s|
  {
    if !Starts(s, '.') then Some(s)
    else if |s| > 1 && IsDigit(s[1]) then Some(SkipDigits(s[2..]))
    else None
  }

  function SkipExp(s: string): (r: Option<string>)
    ensures r.Some? ==> |r.value| <= |s|
  {
    if !Starts(s, 'e') && !Starts(s, 'E') then Some(s)
    else
      var u := if Starts(s[1..], '+') || Starts(s[1..], '-') then s[2..] else s[1..];
      if u != "" && IsDigit(u[0]) then Some(SkipDigits(u[1..])) else None
  }

  function SkipNumber(s: string): (r: Option<string>)
    ensures r.Some? ==> |r.value| < |s|
  {
    match SkipInt(if Starts(s, '-') then s[1..] else s)
    case None => None
    case Some(u) =>
      match SkipFrac(u)
      case None => None
      case Some(v) => SkipExp(v)
  }

  // ---------------------------------------------------------------- strings (section 7)

  predicate IsEscape(c: char) {
    c in {'"', '\\', '/', 'b', 'f', 'n', 'r', 't'}
  }

  predicate FourHex(s: string) {
    |s| >= 4 && IsHex(s[0]) && IsHex(s[1]) && IsHex(s[2]) && IsHex(s[3])
  }

  /** The characters of a string and its closing quote. */
  function SkipChars(s: string): (r: Option<string>)
    ensures r.Some? ==> |r.value| < |s|
    decreases |s|
  {
    if s == "" || s[0] < ' ' then None
    else if s[0] == '"' then Some(s[1..])
    else if s[0] != '\\' then SkipChars(s[1..])
    else if |s| > 1 && IsEscape(s[1]) then SkipChars(s[2..])
    else if |s| > 1 && s[1] == 'u' && FourHex(s[2..]) then SkipChars(s[6..])
    else None
  }

  // ---------------------------------------------------------------- values (sections 3 to 5)

  function SkipLiteral(s: string, word: string): (r: Option<string>)
    ensures r.Some? ==> |r.value| == |s| - |word|
  {
    if word <= s then Some(s[|word|..]) else None
  }

  function SkipValue(s: string): (r: Option<string>)
    ensures r.Some? ==> |r.value| < |s|
    decreases |s|, 0
  {
    if s == "" then None
    else if s[0] == '{' then
      var u := SkipWs(s[1..]);
      if Starts(u, '}') then Some(u[1..]) else SkipMembers(u)
    else if s[0] == '[' then
      var u := SkipWs(s[1..]);
      if Starts(u, ']') then Some(u[1..]) else SkipElements(u)
    else if s[0] == '"' then SkipChars(s[1..])
    else if s[0] == 't' then SkipLiteral(s, "true")
    else if s[0] == 'f' then SkipLiteral(s, "false")
    else if s[0] == 'n' then SkipLiteral(s, "null")
    else SkipNumber(s)
  }

  /** A value with the whitespace around it. */
  function SkipElement(s: string): (r: Option<string>)
    ensures r.Some? ==> |r.value| < |s|
    decreases |s|, 1
  {
    match SkipValue(SkipWs(s))
    case None => None
    case Some(u) => Some(SkipWs(u))
  }

  function SkipElements(s: string): (r: Option<string>)
    ensures r.Some? ==> |r.value| < |s|
    decreases |s|, 2
  {
    match SkipElement(s)
    case None => None
    case Some(u) =>
      if Starts(u, ',') then SkipElements(u[1..])
      else if Starts(u, ']') then Some(u[1..])
      else None
  }

  function SkipMembers(s: string): (r: Option<string>)
    ensures r.Some? ==> |r.value| < |s|
    decreases |s|, 2
  {
    match SkipKey(s)
    case None => None
    case Some(v) =>
      match SkipElement(v)
      case None => None
      case Some(u) =>
        if Starts(u, ',') then SkipMembers(u[1..])
        else if Starts(u, '}') then Some(u[1..])
        else None
  }

  /** A member's key up to and including the colon. */
  function SkipKey(s: string): (r: Option<string>)
    ensures r.Some? ==> |r.value| < |s|
  {
    var u := SkipWs(s);
    if !Starts(u, '"') then None
    else
      match SkipChars(u[1..])
      case None => None
      case Some(v) => if Starts(SkipWs(v), ':') then Some(SkipWs(v)[1..]) else None
  }

  // ---------------------------------------------------------------- a value is recognized in context

  /** Text that cannot continue a value: it starts with a comma, a closing brace or a closing bracket. */
  predicate Stop(t: string) {
    Starts(t, ',') || Starts(t, '}') || Starts(t, ']')
  }

  lemma {:induction false} WsInContext(s: string, t: string)
    requires Stop(t)
    ensures SkipWs(s + t) == SkipWs(s) + t
    decreases |s|
  {
    if s == "" {
      assert s + t == t;
      assert !IsWs(t[0]);
      assert SkipWs(t) == t;
    } else {
      assert (s + t)[0] == s[0];
      if IsWs(s[0]) {
        WsInContext(s[1..], t);
        assert (s + t)[1..] == s[1..] + t;
      }
    }
  }

  lemma {:induction false} DigitsInContext(s: string, t: string)
    requires Stop(t)
    ensures SkipDigits(s + t) == SkipDigits(s) + t
    decreases |s|
  {
    if s == "" {
      assert s + t == t;
    } else if IsDigit(s[0]) {
      DigitsInContext(s[1..], t);
      assert (s + t)[1..] == s[1..] + t;
    }
  }

  lemma IntInContext(s: string, t: string)
    requires Stop(t) && SkipInt(s).Some?
    ensures SkipInt(s + t) == Some(SkipInt(s).value + t)
  {
    assert (s + t)[1..] == s[1..] + t;
    DigitsInContext(s[1..], t);
  }

  lemma FracInContext(s: string, t: string)
    requires Stop(t) && SkipFrac(s).Some?
    ensures SkipFrac(s + t) == Some(SkipFrac(s).value + t)
  {
    if Starts(s, '.') {
      assert (s + t)[2..] == s[2..] + t;
      DigitsInContext(s[2..], t);
    } else if s == "" {
      assert s + t == t;
    }
  }

  lemma ExpInContext(s: string, t: string)
    requires Stop(t) && SkipExp(s).Some?
    ensures SkipExp(s + t) == Some(SkipExp(s).value + t)
  {
    if Starts(s, 'e') || Starts(s, 'E') {
      assert (s + t)[1..] == s[1..] + t;
      var u := if Starts(s[1..], '+') || Starts(s[1..], '-') then s[2..] else s[1..];
      assert |s| > 1;
      assert (s + t)[2..] == s[2..] + t;
      DigitsInContext(u[1..], t);
      assert (u + t)[1..] == u[1..] + t;
    } else if s == "" {
      assert s + t == t;
    }
  }

  lemma NumberInContext(s: string, t: string)
    requires Stop(t) && SkipNumber(s).Some?
    ensures SkipNumber(s + t) == Some(SkipNumber(s).value + t)
  {
    var u := if Starts(s, '-') then s[1..] else s;
    assert (if Starts(s + t, '-') then (s + t)[1..] else s + t) == u + t;
    IntInContext(u, t);
    FracInContext(SkipInt(u).value, t);
    ExpInContext(SkipFrac(SkipInt(u).value).value, t);
  }

  lemma {:induction false} CharsInContext(s: string, t: string)
    requires SkipChars(s).Some?
    ensures SkipChars(s + t) == Some(SkipChars(s).value + t)
    decreases |s|
  {
    assert (s + t)[1..] == s[1..] + t;
    if s[0] == '"' {
    } else if s[0] != '\\' {
      CharsInContext(s[1..], t);
    } else if IsEscape(s[1]) {
      assert (s + t)[2..] == s[2..] + t;
      CharsInContext(s[2..], t);
    } else {
      assert (s + t)[2..] == s[2..] + t && (s + t)[6..] == s[6..] + t;
      CharsInContext(s[6..], t);
    }
  }

  lemma LiteralInContext(s: string, word: string, t: string)
    requires SkipLiteral(s, word).Some?
    ensures SkipLiteral(s + t, word) == Some(SkipLiteral(s, word).value + t)
  {
    assert (s + t)[|word|..] == s[|word|..] + t;
  }

  /** A value is recognized to the same place whatever comma, closing brace or closing bracket follows the text. */
  lemma {:induction false} ValueInContext(s: string, t: string)
    requires Stop(t) && SkipValue(s).Some?
    ensures SkipValue(s + t) == Some(SkipValue(s).value + t)
    decreases |s|, 0
  {
    assert (s + t)[1..] == s[1..] + t;
    if s[0] == '{' {
      WsInContext(s[1..], t);
      var u := SkipWs(s[1..]);
      if Starts(u, '}') {
        assert (u + t)[1..] == u[1..] + t;
      } else {
        MembersInContext(u, t);
      }
    } else if s[0] == '[' {
      WsInContext(s[1..], t);
      var u := SkipWs(s[1..]);
      if Starts(u, ']') {
        assert (u + t)[1..] == u[1..] + t;
      } else {
        ElementsInContext(u, t);
      }
    } else if s[0] == '"' {
      CharsInContext(s[1..], t);
    } else if s[0] == 't' {
      LiteralInContext(s, "true", t);
    } else if s[0] == 'f' {
      LiteralInContext(s, "false", t);
    } else if s[0] == 'n' {
      LiteralInContext(s, "null", t);
    } else {
      NumberInContext(s, t);
    }
  }

  lemma {:induction false} ElementInContext(s: string, t: string)
    requires Stop(t) && SkipElement(s).Some?
    ensures SkipElement(s + t) == Some(SkipElement(s).value + t)
    decreases |s|, 1
  {
    WsInContext(s, t);
    ValueInContext(SkipWs(s), t);
    WsInContext(SkipValue(SkipWs(s)).value, t);
  }

  lemma {:induction false} ElementsInContext(s: string, t: string)
    requires Stop(t) && SkipElements(s).Some?
    ensures SkipElements(s + t) == Some(SkipElements(s).value + t)
    decreases |s|, 2
  {
    ElementInContext(s, t);
    var u := SkipElement(s).value;
    assert (u + t)[1..] == u[1..] + t;
    if Starts(u, ',') {
      ElementsInContext(u[1..], t);
    }
  }

  lemma KeyInContext(s: string, t: string)
    requires Stop(t) && SkipKey(s).Some?
    ensures SkipKey(s + t) == Some(SkipKey(s).value + t)
  {
    WsInContext(s, t);
    var u := SkipWs(s);
    assert (u + t)[1..] == u[1..] + t;
    CharsInContext(u[1..], t);
    var v := SkipChars(u[1..]).value;
    WsInContext(v, t);
    assert (SkipWs(v) + t)[1..] == SkipWs(v)[1..] + t;
  }

  lemma {:induction false} MembersInContext(s: string, t: string)
    requires Stop(t) && SkipMembers(s).Some?
    ensures SkipMembers(s + t) == Some(SkipMembers(s).value + t)
    decreases |s|, 2
  {
    KeyInContext(s, t);
    ElementInContext(SkipKey(s).value, t);
    var u := SkipElement(SkipKey(s).value).value;
    assert (u + t)[1..] == u[1..] + t;
    if Starts(u, ',') {
      MembersInContext(u[1..], t);
    }
  }
}
