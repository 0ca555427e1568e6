/** paramsJSON (render.go:216-243): the params map as one JSON object, raw values copied, keys sorted. */
module ParamsJson {
  import opened JsonTree
  import opened JsonText

  // ---------------------------------------------------------------- keys as JSON strings

  function HexDigit(d: nat): char
    requires d < 16
  {
    if d < 10 then '0' + d as char else 'a' + (d - 10) as char
  }

  function HexValue(c: char): nat
    requires IsHex(c)
    ensures HexValue(c) < 16
  {
    if c <= '9' then (c - '0') as nat else if c <= 'F' then (c - 'A') as nat + 10 else (c - 'a') as nat + 10
  }

  function Hex4(v: nat): string
    requires v < 0x10000
  {
    var q := v / 16;
    [HexDigit(q / 16 / 16), HexDigit(q / 16 % 16), HexDigit(q % 16), HexDigit(v % 16)]
  }

  function Hex4Value(s: string): (v: nat)
    requires FourHex(s)
    ensures v < 0x10000
  {
    ((HexValue(s[0]) * 16 + HexValue(s[1])) * 16 + HexValue(s[2])) * 16 + HexValue(s[3])
  }

  /** encoding/json's escaping, HTML characters and line separators included. */
  function EscapeChar(c: char): string {
    if c == '"' then "\\\""
    else if c == '\\' then "\\\\"
    else if c == 8 as char then "\\b"
    else if c == 12 as char then "\\f"
    else if c == '\n' then "\\n"
    else if c == '\r' then "\\r"
    else if c == '\t' then "\\t"
    else if c < ' ' || c == '<' || c == '>' || c == '&' || c == 0x2028 as char || c == 0x2029 as char then "\\u" + Hex4(c as nat)
    else [c]
  }

  function Escape(k: string): string {
    if k == "" then "" else EscapeChar(k[0]) + Escape(k[1..])
  }

  /** A character that may stand in escaped text: no control character, nothing HTML cares about, no line separator. */
  predicate IsPlain(c: char) {
    ' ' <= c && c != '<' && c != '>' && c != '&' && c != 0x2028 as char && c != 0x2029 as char
  }

  lemma HexIsPlain(v: nat)
    requires v < 0x10000
    ensures forall c | c in Hex4(v) :: IsPlain(c)
  {
  }

  lemma EscapedCharIsPlain(c: char)
    ensures forall x | x in EscapeChar(c) :: IsPlain(x)
    ensures IsPlain(c) && c != '"' && c != '\\' ==> EscapeChar(c) == [c]
  {
    if !IsPlain(c) && c as nat < 0x10000 {
      HexIsPlain(c as nat);
    }
  }

  /** Escaped text is plain throughout, and a key with nothing to escape is printed as it is. */
  lemma {:induction false} EscapedIsPlain(k: string)
    ensures forall c | c in Escape(k) :: IsPlain(c)
    ensures (forall c | c in k :: IsPlain(c) && c != '"' && c != '\\') ==> Escape(k) == k
    decreases |k|
  {
    if k != "" {
      EscapedCharIsPlain(k[0]);
      EscapedIsPlain(k[1..]);
      assert k == [k[0]] + k[1..] && k[0] in k && forall c | c in k[1..] :: c in k;
    }
  }

  /** json.Marshal of a string. */
  function Quote(k: string): string {
    "\"" + Escape(k) + "\""
  }

  function UnescapeOne(c: char): char
    requires IsEscape(c)
  {
    if c == 'b' then 8 as char else if c == 'f' then 12 as char else if c == 'n' then '\n'
    else if c == 'r' then '\r' else if c == 't' then '\t' else c
  }

  /** The characters of a JSON string up to its closing quote, and what follows it. Lone surrogates are refused. */
  function ReadChars(s: string): (r: Option<(string, string)>)
    ensures r.Some? ==> |r.value.1| < |s|
    decreases |s|
  {
    if s == "" || s[0] < ' ' then None
    else if s[0] == '"' then Some(("", s[1..]))
    else if s[0] != '\\' then Before(s[0], ReadChars(s[1..]))
    else if |s| > 1 && IsEscape(s[1]) then Before(UnescapeOne(s[1]), ReadChars(s[2..]))
    else if |s| > 1 && s[1] == 'u' && FourHex(s[2..]) && !(0xD800 <= Hex4Value(s[2..]) < 0xE000) then
      Before(Hex4Value(s[2..]) as char, ReadChars(s[6..]))
    else None
  }

  function Before(c: char, r: Option<(string, string)>): Option<(string, string)> {
    if r.None? then None else Some(([c] + r.value.0, r.value.1))
  }

  // ---------------------------------------------------------------- printing and parsing the object

  /** An empty raw value is written as an empty object. */
  function Raw(v: string): string {
    if v == "" then "{}" else v
  }

  predicate ValidRaw(v: string) {
    v == "" || SkipElement(v) == Some("")
  }

  function Members(ks: seq<string>, m: map<string, string>): string
    requires forall k | k in ks :: k in m
  {
    if ks == [] then ""
    else Quote(ks[0]) + ":" + Raw(m[ks[0]]) + (if |ks| == 1 then "" else "," + Members(ks[1..], m))
  }

  function Body(ks: seq<string>, m: map<string, string>): string
    requires forall k | k in ks :: k in m
  {
    "{" + Members(ks, m) + "}"
  }

  /** A JSON object read into its keys and the raw text of its values; a repeated key keeps its last value. */
  function ParseObject(s: string): Option<map<string, string>> {
    var u := SkipWs(s);
    if !Starts(u, '{') then None
    else
      var v := SkipWs(u[1..]);
      if Starts(v, '}') then (if SkipWs(v[1..]) == "" then Some(map[]) else None)
      else
        match ParseMembers(v)
        case None => None
        case Some((m, rest)) => if SkipWs(rest) == "" then Some(m) else None
  }

  function ParseMembers(s: string): Option<(map<string, string>, string)>
    decreases |s|
  {
    var u := SkipWs(s);
    if !Starts(u, '"') then None
    else
      match ReadChars(u[1..])
      case None => None
      case Some((k, v)) =>
        var w := SkipWs(v);
        if !Starts(w, ':') then None
        else
          match SkipElement(w[1..])
          case None => None
          case Some(rest) =>
            var raw := w[1..][..|w[1..]| - |rest|];
            if Starts(rest, '}') then Some((map[k := raw], rest[1..]))
            else if Starts(rest, ',') then
              match ParseMembers(rest[1..])
              case None => None
              case Some((m, end)) => Some((map[k := raw] + m, end))
            else None
  }

  // ---------------------------------------------------------------- round trip

  lemma HexReadsBack(d: nat)
    requires d < 16
    ensures IsHex(HexDigit(d)) && HexValue(HexDigit(d)) == d
  {
  }

  lemma Hex4ReadsBack(v: nat)
    requires v < 0x10000
    ensures FourHex(Hex4(v)) && Hex4Value(Hex4(v)) == v
  {
    var q := v / 16;
    HexReadsBack(q / 16 / 16);
    HexReadsBack(q / 16 % 16);
    HexReadsBack(q % 16);
    HexReadsBack(v % 16);
  }

  lemma HexPrefix(h: string, s: string)
    requires |h| == 4 && FourHex(h)
    ensures FourHex(h + s) && Hex4Value(h + s) == Hex4Value(h)
  {
    assert forall i | 0 <= i < 4 :: (h + s)[i] == h[i];
  }

  lemma ReadHex(h: string, s: string)
    requires |h| == 4 && FourHex(h) && !(0xD800 <= Hex4Value(h) < 0xE000)
    ensures ReadChars("\\u" + h + s) == Before(Hex4Value(h) as char, ReadChars(s))
    ensures SkipChars("\\u" + h + s) == SkipChars(s)
  {
    var t := "\\u" + h + s;
    assert t[2..] == h + s && t[6..] == s;
    HexPrefix(h, s);
  }

  lemma ReadUnicode(v: nat, s: string)
    requires v < 0x10000 && !(0xD800 <= v < 0xE000)
    ensures ReadChars("\\u" + Hex4(v) + s) == Before(v as char, ReadChars(s))
    ensures SkipChars("\\u" + Hex4(v) + s) == SkipChars(s)
  {
    Hex4ReadsBack(v);
    ReadHex(Hex4(v), s);
  }

  lemma ReadShort(c: char, s: string)
    requires IsEscape(c)
    ensures ReadChars(['\\', c] + s) == Before(UnescapeOne(c), ReadChars(s))
    ensures SkipChars(['\\', c] + s) == SkipChars(s)
  {
    assert (['\\', c] + s)[2..] == s;
  }

  lemma ReadPlain(c: char, s: string)
    requires c >= ' ' && c != '"' && c != '\\'
    ensures ReadChars([c] + s) == Before(c, ReadChars(s))
    ensures SkipChars([c] + s) == SkipChars(s)
  {
    assert ([c] + s)[1..] == s;
  }

  /** The three ways in which a character is escaped. */
  lemma EscapeForms(c: char)
    ensures var e := EscapeChar(c);
            || (e == [c] && c >= ' ' && c != '"' && c != '\\')
            || (|e| == 2 && e == ['\\', e[1]] && IsEscape(e[1]) && UnescapeOne(e[1]) == c)
            || (c as nat < 0x10000 && !(0xD800 <= c as nat < 0xE000) && e == "\\u" + Hex4(c as nat))
  {
  }

  lemma ReadForm(e: string, c: char, s: string)
    requires
      || (e == [c] && c >= ' ' && c != '"' && c != '\\')
      || (|e| == 2 && e == ['\\', e[1]] && IsEscape(e[1]) && UnescapeOne(e[1]) == c)
      || (c as nat < 0x10000 && !(0xD800 <= c as nat < 0xE000) && e == "\\u" + Hex4(c as nat))
    ensures ReadChars(e + s) == Before(c, ReadChars(s))
    ensures SkipChars(e + s) == SkipChars(s)
  {
    if e == [c] {
      ReadPlain(c, s);
    } else if |e| == 2 {
      ReadShort(e[1], s);
    } else {
      ReadUnicode(c as nat, s);
    }
  }

  /** One escaped character is read back as itself. */
  lemma ReadEscapedChar(c: char, s: string)
    ensures ReadChars(EscapeChar(c) + s) == Before(c, ReadChars(s))
    ensures SkipChars(EscapeChar(c) + s) == SkipChars(s)
  {
    EscapeForms(c);
    ReadForm(EscapeChar(c), c, s);
  }

  lemma {:induction false} ReadEscaped(k: string, s: string)
    ensures ReadChars(Escape(k) + "\"" + s) == Some((k, s))
    ensures SkipChars(Escape(k) + "\"" + s) == Some(s)
    decreases |k|
  {
    if k == "" {
      assert Escape(k) + "\"" + s == "\"" + s;
    } else {
      ReadEscaped(k[1..], s);
      var rest := Escape(k[1..]) + "\"" + s;
      assert Escape(k) + "\"" + s == EscapeChar(k[0]) + rest;
      ReadEscapedChar(k[0], rest);
      assert [k[0]] + k[1..] == k;
    }
  }

  /** A raw value followed by a comma or brace is read back exactly. */
  lemma RawInContext(v: string, t: string)
    requires ValidRaw(v) && Stop(t)
    ensures SkipElement(Raw(v) + t) == Some(t)
  {
    if v == "" {
      assert ("{}" + t)[1..] == "}" + t && ("}" + t)[1..] == t;
      assert SkipWs("}" + t) == "}" + t && SkipWs("{}" + t) == "{}" + t;
      assert SkipWs(t) == t;
    } else {
      ElementInContext(v, t);
      assert "" + t == t;
    }
  }

  function Filled(ks: seq<string>, m: map<string, string>): map<string, string>
    requires forall k | k in ks :: k in m
  {
    map k | k in ks :: Raw(m[k])
  }

  ghost predicate Distinct(ks: seq<string>) {
    forall i, j | 0 <= i < j < |ks| :: ks[i] != ks[j]
  }

  /** The text after a member's colon: its value, then the next member or the end. */
  function AfterColon(ks: seq<string>, m: map<string, string>): string
    requires ks != [] && forall k | k in ks :: k in m
  {
    Raw(m[ks[0]]) + if |ks| == 1 then "}" else "," + (Members(ks[1..], m) + "}")
  }

  lemma MembersText(ks: seq<string>, m: map<string, string>)
    requires ks != [] && forall k | k in ks :: k in m
    ensures Members(ks, m) + "}" == "\"" + (Escape(ks[0]) + "\"" + (":" + AfterColon(ks, m)))
  {
    var q, e, raw := "\"", Escape(ks[0]), Raw(m[ks[0]]);
    var rest := if |ks| == 1 then "" else "," + Members(ks[1..], m);
    assert rest + "}" == if |ks| == 1 then "}" else "," + (Members(ks[1..], m) + "}");
    MembersRegroup(q, e, ":", raw, rest, "}");
  }

  lemma MembersRegroup(q: string, e: string, c: string, raw: string, rest: string, end: string)
    ensures q + e + q + c + raw + rest + end == q + (e + q + (c + (raw + (rest + end))))
  {
  }

  /** One member's text, its key and value, and what stops the value. */
  function MemberText(k: string, v: string, stop: string): string {
    "\"" + (Escape(k) + "\"" + (":" + (Raw(v) + stop)))
  }

  /** The start of a member: its key, the colon, and then its raw value. */
  lemma MemberStart(k: string, v: string, stop: string)
    requires ValidRaw(v) && Stop(stop)
    ensures var s := MemberText(k, v, stop);
            && SkipWs(s) == s && Starts(s, '"')
            && ReadChars(s[1..]) == Some((k, ":" + (Raw(v) + stop))) && SkipChars(s[1..]) == Some(":" + (Raw(v) + stop))
    ensures SkipWs(":" + (Raw(v) + stop)) == ":" + (Raw(v) + stop) && (":" + (Raw(v) + stop))[1..] == Raw(v) + stop
    ensures SkipElement(Raw(v) + stop) == Some(stop) && (Raw(v) + stop)[..|Raw(v) + stop| - |stop|] == Raw(v)
  {
    var after := Raw(v) + stop;
    var chars := Escape(k) + "\"" + (":" + after);
    assert MemberText(k, v, stop)[1..] == chars;
    ReadEscaped(k, ":" + after);
    RawInContext(v, stop);
  }

  /** Reading one member: its key, its raw value, and then what follows. */
  lemma OneMember(k: string, v: string, stop: string)
    requires ValidRaw(v) && (Starts(stop, ',') || Starts(stop, '}'))
    ensures var s := MemberText(k, v, stop);
            && ParseMembers(s) ==
                 (if Starts(stop, '}') then Some((map[k := Raw(v)], stop[1..]))
                  else match ParseMembers(stop[1..]) case None => None case Some((m, end)) => Some((map[k := Raw(v)] + m, end)))
            && SkipMembers(s) == if Starts(stop, '}') then Some(stop[1..]) else SkipMembers(stop[1..])
  {
    MemberStart(k, v, stop);
  }

  predicate ReadsMembers(s: string, m: map<string, string>) {
    ParseMembers(s) == Some((m, "")) && SkipMembers(s) == Some("")
  }

  /** The last member before the closing brace. */
  lemma LastMember(k: string, v: string)
    requires ValidRaw(v)
    ensures ReadsMembers(MemberText(k, v, "}"), map[k := Raw(v)])
  {
    OneMember(k, v, "}");
    assert "}"[1..] == "";
  }

  /** A member and a comma before members that are read back. */
  lemma NextMember(k: string, v: string, rest: string, m: map<string, string>)
    requires ValidRaw(v) && ReadsMembers(rest, m)
    ensures ReadsMembers(MemberText(k, v, "," + rest), map[k := Raw(v)] + m)
  {
    OneMember(k, v, "," + rest);
    assert ("," + rest)[1..] == rest;
  }

  lemma {:induction false} MembersReadBack(ks: seq<string>, m: map<string, string>)
    requires ks != [] && Distinct(ks) && (forall k | k in ks :: k in m && ValidRaw(m[k]))
    ensures ReadsMembers(Members(ks, m) + "}", Filled(ks, m))
    decreases |ks|
  {
    MembersText(ks, m);
    FilledStep(ks, m);
    if |ks| == 1 {
      assert Filled(ks[1..], m) == map[] && map[ks[0] := Raw(m[ks[0]])] + map[] == map[ks[0] := Raw(m[ks[0]])];
      LastMember(ks[0], m[ks[0]]);
    } else {
      MembersReadBack(ks[1..], m);
      NextMember(ks[0], m[ks[0]], Members(ks[1..], m) + "}", Filled(ks[1..], m));
    }
  }

  lemma FilledStep(ks: seq<string>, m: map<string, string>)
    requires ks != [] && Distinct(ks) && forall k | k in ks :: k in m
    ensures Filled(ks, m) == map[ks[0] := Raw(m[ks[0]])] + Filled(ks[1..], m)
  {
    assert forall k | k in ks :: k == ks[0] || k in ks[1..];
    assert ks[0] !in ks[1..];
  }

  /** The whole map as the parser should give it back. */
  function Expected(m: map<string, string>): map<string, string> {
    map k | k in m :: Raw(m[k])
  }

  /** The same keys and raw values, except that an empty raw is an empty object. */
  ghost predicate ReadsBackAs(m: map<string, string>, r: map<string, string>) {
    r.Keys == m.Keys && forall k | k in m :: r[k] == if m[k] == "" then "{}" else m[k]
  }

  lemma RawReadsBack(m: map<string, string>)
    ensures ReadsBackAs(m, Expected(m))
  {
    assert Expected(m).Keys == m.Keys;
  }

  ghost predicate Enumerates(ks: seq<string>, m: map<string, string>) {
    Distinct(ks) && forall k :: k in ks <==> k in m
  }

  lemma BodyStart(ks: seq<string>, m: map<string, string>)
    requires forall k | k in ks :: k in m
    ensures var s, inner := Body(ks, m), Members(ks, m) + "}"; SkipWs(s) == s && Starts(s, '{') && s[1..] == inner
  {
    assert Body(ks, m) == "{" + (Members(ks, m) + "}");
  }

  lemma EmptyParsesBack(m: map<string, string>)
    requires m == map[]
    ensures ParseObject(Body([], m)) == Some(map[]) && SkipElement(Body([], m)) == Some("")
  {
    BodyStart([], m);
    assert "" + "}" == "}" && SkipWs("}") == "}" && "}"[1..] == "";
  }

  lemma MembersStart(ks: seq<string>, m: map<string, string>)
    requires ks != [] && forall k | k in ks :: k in m
    ensures var inner := Members(ks, m) + "}"; SkipWs(inner) == inner && Starts(inner, '"')
  {
    MembersText(ks, m);
  }

  /**
   Round trip, for any order of the keys: with valid raw values the text is one JSON value, an
   object, and parses back to the params, an empty raw read as `{}`.
   */
  lemma ParsesBack(ks: seq<string>, m: map<string, string>)
    requires Enumerates(ks, m) && forall k | k in m :: ValidRaw(m[k])
    ensures ParseObject(Body(ks, m)) == Some(Expected(m)) && ReadsBackAs(m, Expected(m))
    ensures SkipElement(Body(ks, m)) == Some("")
  {
    RawReadsBack(m);
    if ks == [] {
      assert m == map[];
      EmptyParsesBack(m);
    } else {
      BodyStart(ks, m);
      MembersStart(ks, m);
      MembersReadBack(ks, m);
      assert Filled(ks, m) == Expected(m);
    }
  }

  // ---------------------------------------------------------------- sorting makes the bytes a function of the map

  /** Lexicographic order by character. */
  predicate Less(a: string, b: string) {
    if b == "" then false
    else if a == "" then true
    else if a[0] == b[0] then Less(a[1..], b[1..])
    else a[0] < b[0]
  }

  /** `a` is less where it first differs, or ends first. */
  ghost predicate LessAt(a: string, b: string, i: nat) {
    i <= |a| && i < |b| && a[..i] == b[..i] && (i == |a| || a[i] < b[i])
  }

  lemma {:induction false} LessIff(a: string, b: string)
    ensures Less(a, b) <==> exists i: nat :: LessAt(a, b, i)
    decreases |a|
  {
    if a != "" && b != "" && a[0] == b[0] {
      LessIff(a[1..], b[1..]);
      if Less(a[1..], b[1..]) {
        var i: nat :| LessAt(a[1..], b[1..], i);
        assert a[..i + 1] == [a[0]] + a[1..][..i] && b[..i + 1] == [b[0]] + b[1..][..i];
        assert LessAt(a, b, i + 1);
      } else if exists i: nat :: LessAt(a, b, i) {
        var i: nat :| LessAt(a, b, i);
        LessBelow(a, b, i);
      }
    } else if Less(a, b) {
      assert LessAt(a, b, 0);
    } else if exists i: nat :: LessAt(a, b, i) {
      var i: nat :| LessAt(a, b, i);
      LessHeads(a, b, i);
    }
  }

  lemma LessHeads(a: string, b: string, i: nat)
    requires LessAt(a, b, i)
    ensures i > 0 ==> a[0] == b[0]
  {
    if i > 0 {
      assert a[..i][0] == b[..i][0];
    }
  }

  lemma LessBelow(a: string, b: string, i: nat)
    requires a != "" && b != "" && a[0] == b[0] && LessAt(a, b, i)
    ensures i > 0 && LessAt(a[1..], b[1..], i - 1)
  {
    assert a[1..][..i - 1] == a[..i][1..] && b[1..][..i - 1] == b[..i][1..];
  }

  lemma {:induction false} LessIsTotal(a: string, b: string)
    ensures a == b || Less(a, b) || Less(b, a)
    decreases |a|
  {
    if a != "" && b != "" && a[0] == b[0] {
      LessIsTotal(a[1..], b[1..]);
      assert a == [a[0]] + a[1..] && b == [b[0]] + b[1..];
    }
  }

  lemma {:induction false} LessIsStrict(a: string, b: string)
    requires Less(a, b)
    ensures !Less(b, a) && a != b
    decreases |a|
  {
    if a != "" && a[0] == b[0] {
      LessIsStrict(a[1..], b[1..]);
    }
  }

  lemma {:induction false} LessIsTransitive(a: string, b: string, c: string)
    requires Less(a, b) && Less(b, c)
    ensures Less(a, c)
    decreases |a|
  {
    if a != "" && a[0] == b[0] && b[0] == c[0] {
      LessIsTransitive(a[1..], b[1..], c[1..]);
    }
  }

  ghost predicate Sorted(ks: seq<string>) {
    forall i, j | 0 <= i < j < |ks| :: Less(ks[i], ks[j])
  }

  /** A set of strings has one sorted enumeration. */
  lemma {:induction false} SortedIsUnique(a: seq<string>, b: seq<string>)
    requires Sorted(a) && Sorted(b) && forall k :: k in a <==> k in b
    ensures a == b
    decreases |a|
  {
    assert b != [] ==> b[0] in b;
    if a != [] {
      assert a[0] in b && b != [];
      assert b[0] in a;
      if a[0] != b[0] {
        var i :| 0 < i < |b| && b[i] == a[0];
        var j :| 0 < j < |a| && a[j] == b[0];
        LessIsStrict(b[0], b[i]);
        assert false;
      }
      forall k ensures k in a[1..] <==> k in b[1..] {
        SortedHead(a, k);
        SortedHead(b, k);
      }
      SortedIsUnique(a[1..], b[1..]);
      assert a == [a[0]] + a[1..] && b == [b[0]] + b[1..];
    }
  }

  lemma SortedHead(a: seq<string>, k: string)
    requires a != [] && Sorted(a)
    ensures k in a[1..] <==> k in a && k != a[0]
  {
    if k in a[1..] {
      var i :| 0 <= i < |a[1..]| && a[1..][i] == k;
      assert Less(a[0], a[i + 1]);
      LessIsStrict(a[0], k);
    }
  }

  lemma SortedIsDistinct(ks: seq<string>)
    requires Sorted(ks)
    ensures Distinct(ks)
  {
    forall i, j | 0 <= i < j < |ks| ensures ks[i] != ks[j] {
      LessIsStrict(ks[i], ks[j]);
    }
  }

  /** sort.Strings on distinct keys, by insertion. */
  method SortStrings(keys: seq<string>) returns (sorted: seq<string>)
    requires Distinct(keys)
    ensures Sorted(sorted) && forall k :: k in sorted <==> k in keys
  {
    sorted := [];
    for n := 0 to |keys|
      invariant Sorted(sorted) && forall k :: k in sorted <==> k in keys[..n]
    {
      sorted := Insert(sorted, keys[n]);
    }
    assert keys[..|keys|] == keys;
  }

  method Insert(sorted: seq<string>, k: string) returns (r: seq<string>)
    requires Sorted(sorted) && k !in sorted
    ensures Sorted(r) && forall x :: x in r <==> x == k || x in sorted
  {
    var i := 0;
    while i < |sorted| && Less(sorted[i], k)
      invariant i <= |sorted| && forall j | 0 <= j < i :: Less(sorted[j], k)
    {
      i := i + 1;
    }
    r := sorted[..i] + [k] + sorted[i..];
    if i < |sorted| {
      LessIsTotal(k, sorted[i]);
      forall j | i < j < |sorted| ensures Less(k, sorted[j]) {
        LessIsTransitive(k, sorted[i], sorted[j]);
      }
    }
    assert forall x | x in sorted :: x in sorted[..i] || x in sorted[i..];
  }

  /** One member as it is written. */
  function Member(k: string, m: map<string, string>): string
    requires k in m
  {
    Quote(k) + ":" + Raw(m[k])
  }

  lemma MembersSplit(ks: seq<string>, m: map<string, string>)
    requires |ks| > 1 && forall x | x in ks :: x in m
    ensures Members(ks, m) == Member(ks[0], m) + ("," + Members(ks[1..], m))
  {
  }

  lemma {:induction false} MembersOneMore(ks: seq<string>, k: string, m: map<string, string>)
    requires (forall x | x in ks :: x in m) && k in m
    ensures Members(ks + [k], m) == Members(ks, m) + ((if ks == [] then "" else ",") + Member(k, m))
    decreases |ks|
  {
    if ks == [] {
      assert ks + [k] == [k];
    } else {
      var all := ks + [k];
      assert all[1..] == ks[1..] + [k] && all[0] == ks[0];
      MembersSplit(all, m);
      MembersOneMore(ks[1..], k, m);
      if |ks| == 1 {
        assert Members(ks, m) == Member(ks[0], m);
      } else {
        MembersSplit(ks, m);
        OneMoreRegroup(Member(ks[0], m), ",", Members(ks[1..], m), "," + Member(k, m));
      }
    }
  }

  lemma OneMoreRegroup(a: string, b: string, c: string, d: string)
    ensures a + (b + (c + d)) == a + (b + c) + d
  {
  }

  /** Two sorted enumerations of the keys give the same bytes. */
  lemma SameBytes(a: seq<string>, b: seq<string>, m: map<string, string>)
    requires Sorted(a) && Sorted(b) && (forall k :: k in a <==> k in m) && (forall k :: k in b <==> k in m)
    ensures Body(a, m) == Body(b, m)
  {
    SortedIsUnique(a, b);
  }

  /** The keys, in the arbitrary order of a map range (render.go:217-220). */
  method CollectKeys(params: map<string, string>) returns (keys: seq<string>)
    ensures Enumerates(keys, params)
  {
    keys := [];
    var remaining := params.Keys;
    while remaining != {}
      invariant remaining <= params.Keys && Distinct(keys)
      invariant forall k :: k in keys <==> k in params.Keys - remaining
      decreases remaining
    {
      var k :| k in remaining;
      remaining := remaining - {k};
      assert k !in keys;
      keys := keys + [k];
    }
  }

  /** What one turn of the writing loop appends. */
  function Turn(i: nat, k: string, raw: string): string {
    (if i == 0 then "" else ",") + (Quote(k) + ":" + Raw(raw))
  }

  /** One turn of the writing loop (render.go:226-240). */
  method WriteMember(b: string, i: nat, k: string, raw: string) returns (out: string)
    ensures out == b + Turn(i, k, raw)
  {
    ghost var sep := if i == 0 then "" else ",";
    out := b;
    if i > 0 {
      out := out + ",";
    }
    assert out == b + sep;
    out := out + (Quote(k) + ":");
    TurnRegroup(b, sep, Quote(k) + ":", Raw(raw));
    if |raw| > 0 {
      out := out + raw;
    } else {
      out := out + "{}";
    }
  }

  lemma TurnRegroup(b: string, sep: string, key: string, raw: string)
    ensures b + sep + key + raw == b + (sep + (key + raw))
  {
  }

  /** What has been written after `i` turns. */
  ghost function Written(keys: seq<string>, i: nat, params: map<string, string>): string
    requires i <= |keys| && forall k | k in keys :: k in params
  {
    assert forall k | k in keys[..i] :: k in keys;
    "{" + Members(keys[..i], params)
  }

  lemma OneMoreWritten(keys: seq<string>, i: nat, params: map<string, string>)
    requires i < |keys| && forall k | k in keys :: k in params
    ensures keys[i] in params
    ensures Written(keys, i + 1, params) == Written(keys, i, params) + Turn(i, keys[i], params[keys[i]])
  {
    assert keys[..i + 1] == keys[..i] + [keys[i]];
    assert keys[i] in keys;
    assert forall k | k in keys[..i] :: k in keys;
    MembersOneMore(keys[..i], keys[i], params);
  }

  lemma AllWritten(keys: seq<string>, params: map<string, string>)
    requires forall k | k in keys :: k in params
    ensures Written(keys, 0, params) == "{"
    ensures Written(keys, |keys|, params) + "}" == Body(keys, params)
  {
    assert keys[..|keys|] == keys;
  }

  /** The writing loop (render.go:223-242). */
  method Write(keys: seq<string>, params: map<string, string>) returns (out: string)
    requires forall k | k in keys :: k in params
    ensures out == Body(keys, params)
  {
    AllWritten(keys, params);
    out := "{";
    var i := 0;
    while i < |keys|
      invariant 0 <= i <= |keys| && out == Written(keys, i, params)
    {
      OneMoreWritten(keys, i, params);
      out := WriteMember(out, i, keys[i], params[keys[i]]);
      i := i + 1;
    }
    out := out + "}";
  }

  /**
   paramsJSON (render.go:216-243). The keys are collected in an arbitrary order, yet the text is the
   one sorted rendering of the map; with valid raw values it is a JSON object that parses back to the map.
   */
  method Print(params: map<string, string>) returns (out: string)
    ensures forall ks | Sorted(ks) && (forall k :: k in ks <==> k in params) :: out == Body(ks, params)
    ensures (forall k | k in params :: ValidRaw(params[k])) ==> ParseObject(out) == Some(Expected(params)) && SkipElement(out) == Some("")
    ensures ReadsBackAs(params, Expected(params))
  {
    RawReadsBack(params);
    var keys := CollectKeys(params);
    keys := SortStrings(keys);
    SortedIsDistinct(keys);
    out := Write(keys, params);
    forall ks | Sorted(ks) && (forall k :: k in ks <==> k in params) ensures out == Body(ks, params) {
      SameBytes(ks, keys, params);
    }
    if forall k | k in params :: ValidRaw(params[k]) {
      ParsesBack(keys, params);
    }
  }
}
