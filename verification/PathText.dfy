/**
 The textual field paths that SetData prints (res.go) and the grammar that reads them back
 (fieldpath.Parse of crossplane-runtime, stated here as a concrete function).
 */
module PathText {
  import opened JsonTree

  datatype Seg = Field(name: string) | Index(index: nat)

  // ---------------------------------------------------------------- decimal numbers

  function Digit(d: nat): char
    requires d < 10
  {
    '0' + d as char
  }

  /** fmt's %d for a list index. */
  function Decimal(n: nat): string {
    if n < 10 then [Digit(n)] else Decimal(n / 10) + [Digit(n % 10)]
  }

  predicate IsDigit(c: char) {
    '0' <= c <= '9'
  }

  predicate AllDigits(s: string) {
    forall c | c in s :: IsDigit(c)
  }

  function DecimalValue(s: string): nat
    requires AllDigits(s)
  {
    if s == "" then 0
    else
      assert s[|s| - 1] in s;
      DecimalValue(s[..|s| - 1]) * 10 + (s[|s| - 1] - '0') as nat
  }

  lemma {:induction false} DecimalReadsBack(n: nat)
    ensures Decimal(n) != "" && AllDigits(Decimal(n)) && DecimalValue(Decimal(n)) == n
  {
    if n >= 10 {
      DecimalReadsBack(n / 10);
      assert Decimal(n)[..|Decimal(n)| - 1] == Decimal(n / 10);
    }
  }

  // ---------------------------------------------------------------- printing (SetData)

  predicate HasSuffix(s: string, suffix: string) {
    |suffix| <= |s| && s[|s| - |suffix|..] == suffix
  }

  /** res.go:318-321: below annotations and labels the key is printed in brackets. */
  predicate WrapsKeys(path: string) {
    HasSuffix(path, ".metadata.annotations") || HasSuffix(path, ".metadata.labels")
  }

  /** What is appended to the path for one step down (res.go:325-329 and 336). */
  function Printed(path: string, seg: Seg): string {
    match seg
    case Field(k) => if WrapsKeys(path) then "[" + k + "]" else "." + k
    case Index(i) => "[" + Decimal(i) + "]"
  }

  /** All that is appended to `path` while walking down `segs`. */
  function PrintedAll(path: string, segs: seq<Seg>): string
    decreases segs
  {
    if segs == [] then ""
    else
      var p := Printed(path, segs[0]);
      p + PrintedAll(path + p, segs[1..])
  }

  /** The path SetData has built after walking down `segs` from the empty path. */
  function Text(segs: seq<Seg>): string {
    PrintedAll("", segs)
  }

  /** strings.TrimPrefix(path, "."). */
  function TrimDot(path: string): string {
    if path != "" && path[0] == '.' then path[1..] else path
  }

  // ---------------------------------------------------------------- parsing (fieldpath)

  predicate IsDelimiter(c: char) {
    c == '.' || c == '[' || c == ']'
  }

  /** Length of the longest prefix free of delimiters. */
  function NameLength(s: string): (n: nat)
    ensures n <= |s|
    ensures forall i | 0 <= i < n :: !IsDelimiter(s[i])
    ensures n < |s| ==> IsDelimiter(s[n])
  {
    if s == "" || IsDelimiter(s[0]) then 0 else 1 + NameLength(s[1..])
  }

  function IndexOf(s: string, c: char): (n: nat)
    ensures n <= |s|
    ensures c !in s[..n]
    ensures n < |s| ==> s[n] == c
  {
    if s == "" || s[0] == c then 0 else 1 + IndexOf(s[1..], c)
  }

  /** A bracket segment made only of digits is an index; otherwise it is a field. */
  function FieldOrIndex(s: string): Seg {
    if AllDigits(s) then Index(DecimalValue(s)) else Field(s)
  }

  function Prepend(name: string, tail: Option<seq<Seg>>): Option<seq<Seg>> {
    if tail.None? then None
    else if name == "" then tail
    else Some([Field(name)] + tail.value)
  }

  /** The lexer at a place where a field name, a bracket, a period or the end may follow. */
  function Lex(s: string): Option<seq<Seg>>
    decreases |s|
  {
    var n := NameLength(s);
    var name, rest := s[..n], s[n..];
    if rest == "" then Prepend(name, Some([]))
    else if rest[0] == ']' then None
    else if rest[0] == '[' then Prepend(name, LexBracket(rest))
    else if |rest| == 1 || IsDelimiter(rest[1]) then None   // a period needs a name after it
    else Prepend(name, Lex(rest[1..]))
  }

  function LexBracket(s: string): Option<seq<Seg>>
    requires s != "" && s[0] == '['
    decreases |s|, 0
  {
    var close := IndexOf(s[1..], ']');
    var content := s[1..][..close];
    if close == |s[1..]| || close == 0 || '[' in content then None
    else
      var tail := Lex(s[1..][close + 1..]);
      if tail.None? then None else Some([FieldOrIndex(content)] + tail.value)
  }

  /** A path may not begin with a period. */
  function Parse(path: string): Option<seq<Seg>> {
    if path != "" && path[0] == '.' then None else Lex(path)
  }

  /** Where a text that SetData has printed leads, if it can be read. */
  function ReadsAs(text: string): Option<seq<Seg>> {
    Parse(TrimDot(text))
  }

  // ---------------------------------------------------------------- when printing is unambiguous

  predicate BracketFree(k: string) {
    '[' !in k && ']' !in k
  }

  /** The keys the path text carries safely; `wrapped` says whether the key is printed in brackets. */
  predicate KeyOk(k: string, wrapped: bool) {
    && k != ""
    && BracketFree(k)
    && (if wrapped then !AllDigits(k) else '.' !in k)
  }

  /** Is every key of `segs` safe where it is printed, walking down from `path`? */
  predicate GoodSegs(path: string, segs: seq<Seg>)
    decreases segs
  {
    segs == [] ||
    (&& (segs[0].Field? ==> KeyOk(segs[0].name, WrapsKeys(path)))
     && GoodSegs(path + Printed(path, segs[0]), segs[1..]))
  }

  /** What follows a printed segment is the end, a bracket or a period. */
  lemma PrintedStart(path: string, segs: seq<Seg>)
    ensures PrintedAll(path, segs) != "" ==> PrintedAll(path, segs)[0] in {'.', '['}
  {
  }

  lemma NameLengthIs(s: string, n: nat)
    requires n <= |s| && (forall i | 0 <= i < n :: !IsDelimiter(s[i]))
    requires n < |s| ==> IsDelimiter(s[n])
    ensures NameLength(s) == n
  {
  }

  /** A key free of delimiters is read back whole. */
  lemma LexCleanName(k: string, rest: string)
    requires KeyOk(k, false)
    requires rest != "" ==> rest[0] in {'.', '['}
    ensures Lex(k + rest) == Prepend(k, Lex(rest))
  {
    var s := k + rest;
    NameLengthIs(s, |k|);
    NameLengthIs(rest, 0);
    assert s[..|k|] == k && s[|k|..] == rest && rest[..0] == "" && rest[0..] == rest;
  }

  /** The first segment read from a bracket never has a bracket in its name. */
  lemma BracketHead(s: string)
    requires s != "" && s[0] == '[' && LexBracket(s).Some?
    ensures LexBracket(s).value != []
    ensures LexBracket(s).value[0].Field? ==>
      LexBracket(s).value[0].name != "" && BracketFree(LexBracket(s).value[0].name)
  {
  }

  /** A key holding a delimiter past its start is cut at the delimiter. */
  lemma LexDirtyName(k: string, rest: string)
    requires k != "" && !IsDelimiter(k[0]) && !KeyOk(k, false)
    ensures Lex(k + rest).Some? ==> Lex(k + rest).value != [] && Lex(k + rest).value[0] != Field(k)
  {
    var s := k + rest;
    var n := NameLength(s);
    var d :| 0 <= d < |k| && IsDelimiter(k[d]);
    assert s[d] == k[d] && s[0] == k[0];
    assert n <= d && n != 0;
    assert |s[..n]| != |k|;
  }

  /** Does `r` start with this segment? */
  predicate StartsWith(r: Option<seq<Seg>>, seg: Seg) {
    r.Some? && r.value != [] && r.value[0] == seg
  }

  /** A dotted key past the first: the period and the key are read back exactly when the key is clean. */
  lemma LexDotted(k: string, rest: string)
    requires rest != "" ==> rest[0] in {'.', '['}
    ensures if KeyOk(k, false) then Lex("." + k + rest) == Prepend(k, Lex(rest))
            else !StartsWith(Lex("." + k + rest), Field(k))
  {
    var s := "." + k + rest;
    NameLengthIs(s, 0);
    assert s[0..] == s && s[..0] == "" && s[1..] == k + rest;
    if KeyOk(k, false) {
      LexCleanName(k, rest);
    } else if k != "" && !IsDelimiter(k[0]) {
      LexDirtyName(k, rest);
    }
  }

  /** The first key, whose leading period SetData trims. */
  lemma ParseFirst(k: string, rest: string)
    requires rest != "" ==> rest[0] in {'.', '['}
    ensures if KeyOk(k, false) then Parse(k + rest) == Prepend(k, Lex(rest))
            else !StartsWith(Parse(k + rest), Field(k))
  {
    var s := k + rest;
    if KeyOk(k, false) {
      LexCleanName(k, rest);
    } else if k != "" && !IsDelimiter(k[0]) {
      LexDirtyName(k, rest);
    } else if s != "" && s[0] == '[' {
      NameLengthIs(s, 0);
      assert s[0..] == s && s[..0] == "";
      if LexBracket(s).Some? { BracketHead(s); }
    }
  }

  lemma IndexOfIs(s: string, c: char, n: nat)
    requires n < |s| && s[n] == c && c !in s[..n]
    ensures IndexOf(s, c) == n
  {
    var m := IndexOf(s, c);
    assert forall i | 0 <= i < n :: s[i] == s[..n][i];
    assert forall i | 0 <= i < m :: s[i] == s[..m][i];
  }

  /** A bracket segment is read back exactly when its content is not empty and free of brackets. */
  lemma LexBracketed(k: string, rest: string)
    ensures if k != "" && BracketFree(k)
            then var tail := Lex(rest); Lex("[" + k + "]" + rest) == if tail.None? then None else Some([FieldOrIndex(k)] + tail.value)
            else !StartsWith(Lex("[" + k + "]" + rest), Field(k))
  {
    var s := "[" + k + "]" + rest;
    NameLengthIs(s, 0);
    assert s[0..] == s && s[..0] == "" && s[1..] == k + "]" + rest;
    if k != "" && BracketFree(k) {
      assert s[1..][..|k|] == k;
      IndexOfIs(s[1..], ']', |k|);
      assert s[1..][|k| + 1..] == rest;
    } else if LexBracket(s).Some? {
      BracketHead(s);
    }
  }

  /** One printed segment read back, in the middle of a path. */
  lemma LexOne(path: string, seg: Seg, rest: string)
    requires rest != "" ==> rest[0] in {'.', '['}
    ensures var ok := seg.Field? ==> KeyOk(seg.name, WrapsKeys(path));
            var r, tail := Lex(Printed(path, seg) + rest), Lex(rest);
            if ok then r == if tail.None? then None else Some([seg] + tail.value)
            else !StartsWith(r, seg)
  {
    match seg
    case Index(i) =>
      DecimalReadsBack(i);
      LexBracketed(Decimal(i), rest);
    case Field(k) =>
      if WrapsKeys(path) {
        LexBracketed(k, rest);
      } else {
        LexDotted(k, rest);
      }
  }

  lemma HeadsAndTails(seg: Seg, tail: Option<seq<Seg>>, whole: seq<Seg>)
    requires whole != [] && whole[0] == seg
    ensures (if tail.None? then None else Some([seg] + tail.value)) == Some(whole) <==> tail == Some(whole[1..])
  {
    assert whole == [seg] + whole[1..];
    if tail.Some? {
      assert ([seg] + tail.value)[1..] == tail.value;
    }
  }

  /** Comparing a read-back with what was printed, one segment at a time. */
  lemma {:induction false} LexBackIff(path: string, segs: seq<Seg>)
    ensures Lex(PrintedAll(path, segs)) == Some(segs) <==> GoodSegs(path, segs)
    decreases segs
  {
    if segs == [] {
      assert Lex("") == Some([]);
    } else {
      var path' := path + Printed(path, segs[0]);
      LexBackIff(path', segs[1..]);
      PrintedStart(path', segs[1..]);
      LexOne(path, segs[0], PrintedAll(path', segs[1..]));
      HeadsAndTails(segs[0], Lex(PrintedAll(path', segs[1..])), segs);
    }
  }

  /**
   The path printed for a non-empty list of segments parses back to that list exactly when every
   key is safe where it stands. So under the key conditions printing is injective, and outside
   them every path with an unsafe key goes astray.
   */
  lemma PrintedPathParsesBackIff(segs: seq<Seg>)
    requires segs != []
    ensures Parse(TrimDot(Text(segs))) == Some(segs) <==> GoodSegs("", segs)
  {
    match segs[0]
    case Index(_) =>
      assert Printed("", segs[0])[0] == '[';
      LexBackIff("", segs);
    case Field(k) =>
      FirstKeyIff(k, segs[1..]);
      assert segs == [Field(k)] + segs[1..];
  }

  lemma FirstKeyText(k: string, segs: seq<Seg>)
    ensures TrimDot(Text([Field(k)] + segs)) == k + PrintedAll("." + k, segs)
  {
    var whole, rest := [Field(k)] + segs, PrintedAll("." + k, segs);
    var p := Printed("", whole[0]);
    assert whole[1..] == segs && p == "." + k && "" + p == p;
    assert Text(whole) == p + rest;
    TrimOne(k, rest);
  }

  lemma TrimOne(k: string, rest: string)
    ensures TrimDot(("." + k) + rest) == k + rest
  {
    assert (("." + k) + rest)[1..] == k + rest;
  }

  lemma FirstKeyIff(k: string, segs: seq<Seg>)
    ensures Parse(TrimDot(Text([Field(k)] + segs))) == Some([Field(k)] + segs) <==> GoodSegs("", [Field(k)] + segs)
  {
    var whole, rest := [Field(k)] + segs, PrintedAll("." + k, segs);
    FirstKeyText(k, segs);
    assert whole[1..] == segs && "" + Printed("", Field(k)) == "." + k;
    PrintedStart("." + k, segs);
    LexBackIff("." + k, segs);
    ParseFirst(k, rest);
    HeadsAndTails(Field(k), Lex(rest), whole);
  }
}
