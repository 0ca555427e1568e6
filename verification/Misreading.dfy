/** What becomes of a path whose text does not read back: the segments that come out hold less key text. */
module Misreading {
  import opened JsonTree
  import opened PathText

  /** A key that a path text can name at all, if not always where it stands. */
  predicate PlainKey(k: string) {
    k != "" && BracketFree(k)
  }

  predicate Plain(segs: seq<Seg>) {
    forall i | 0 <= i < |segs| :: segs[i].Field? ==> PlainKey(segs[i].name)
  }

  /** The characters of all keys of a path. */
  function KeyText(segs: seq<Seg>): nat {
    if segs == [] then 0 else (if segs[0].Field? then |segs[0].name| else 0) + KeyText(segs[1..])
  }

  lemma KeyTextCons(x: Seg, segs: seq<Seg>)
    ensures KeyText([x] + segs) == (if x.Field? then |x.name| else 0) + KeyText(segs)
    ensures Plain([x] + segs) <==> (x.Field? ==> PlainKey(x.name)) && Plain(segs)
  {
    var all := [x] + segs;
    assert all[1..] == segs;
    if Plain(all) {
      assert all[0] == x;
      assert forall i | 0 <= i < |segs| :: segs[i] == all[i + 1];
    }
  }

  lemma {:induction false} KeyTextOfPrefix(a: seq<Seg>, b: seq<Seg>)
    requires a <= b
    ensures KeyText(a) <= KeyText(b)
    ensures Plain(b) ==> Plain(a)
    decreases a
  {
    if a != [] {
      KeyTextOfPrefix(a[1..], b[1..]);
    }
  }

  // ---------------------------------------------------------------- keys that no text reads as

  /** Whatever is read from a text has keys that are neither empty nor bracketed. */
  lemma {:induction false} LexIsPlain(s: string)
    ensures Lex(s).Some? ==> Plain(Lex(s).value)
    decreases |s|, 1
  {
    var n := NameLength(s);
    var name, rest := s[..n], s[n..];
    if rest == "" {
      NamePrepended(name, Some([]));
    } else if rest[0] == '[' {
      LexBracketIsPlain(rest);
      NamePrepended(name, LexBracket(rest));
    } else if rest[0] == '.' && |rest| > 1 {
      LexIsPlain(rest[1..]);
      NamePrepended(name, Lex(rest[1..]));
    }
  }

  lemma NamePrepended(name: string, tail: Option<seq<Seg>>)
    requires forall i | 0 <= i < |name| :: !IsDelimiter(name[i])
    requires tail.Some? ==> Plain(tail.value)
    ensures Prepend(name, tail).Some? ==> Plain(Prepend(name, tail).value)
  {
    if tail.Some? {
      KeyTextCons(Field(name), tail.value);
    }
  }

  lemma {:induction false} LexBracketIsPlain(s: string)
    requires s != "" && s[0] == '['
    ensures LexBracket(s).Some? ==> Plain(LexBracket(s).value)
    decreases |s|, 0
  {
    var close := IndexOf(s[1..], ']');
    if close < |s[1..]| {
      LexIsPlain(s[1..][close + 1..]);
      if LexBracket(s).Some? {
        KeyTextCons(FieldOrIndex(s[1..][..close]), Lex(s[1..][close + 1..]).value);
      }
    }
  }

  // ---------------------------------------------------------------- reading loses key text

  /** What comes out of the rest of a text, if anything does. */
  predicate AtMost(r: Option<seq<Seg>>, n: int) {
    r.Some? ==> KeyText(r.value) <= n
  }

  lemma Prepended(k: string, tail: Option<seq<Seg>>, n: int)
    requires AtMost(tail, n)
    ensures AtMost(Prepend(k, tail), |k| + n)
  {
    if tail.Some? {
      KeyTextCons(Field(k), tail.value);
    }
  }

  /** A dot inside a key ends a key, or the reading. */
  lemma AtDot(a: string, more: string, n: int)
    requires BracketFree(a) && '.' !in a && more != "" && more[0] == '.' && AtMost(Lex(more), n)
    ensures AtMost(Lex("." + a + more), |a| + n)
  {
    LexDotted(a, more);
    if a == "" {
      NothingAfterDot(more);
    } else {
      Prepended(a, Lex(more), n);
    }
  }

  lemma Regroup(a: string, b: string, rest: string)
    ensures "." + (a + "." + b) + rest == "." + a + ("." + b + rest)
  {
  }

  /** A key after a period: each dot in it is lost, or nothing is read at all. */
  lemma {:induction false} DottedLoses(k: string, rest: string, n: int)
    requires BracketFree(k) && (rest != "" ==> rest[0] in {'.', '['})
    requires AtMost(Lex(rest), n)
    ensures AtMost(Lex("." + k + rest), |k| + n)
    ensures !KeyOk(k, false) ==> AtMost(Lex("." + k + rest), |k| + n - 1)
    decreases |k|
  {
    if k == "" {
      NothingAfterDot(rest);
    } else if '.' !in k {
      LexDotted(k, rest);
      Prepended(k, Lex(rest), n);
    } else {
      var d := IndexOf(k, '.');
      var a, b := k[..d], k[d + 1..];
      FirstDot(k, d);
      DottedLoses(b, rest, n);
      AtDot(a, "." + b + rest, |b| + n);
      Regroup(a, b, rest);
      assert k == a + "." + b;
    }
  }

  lemma FirstDot(k: string, d: nat)
    requires '.' in k && d == IndexOf(k, '.')
    ensures d < |k| && k[d] == '.' && '.' !in k[..d]
    ensures BracketFree(k) ==> BracketFree(k[..d]) && BracketFree(k[d + 1..])
  {
  }

  lemma NothingAfterDot(rest: string)
    requires rest != "" ==> rest[0] in {'.', '['}
    ensures Lex("." + rest) == None
    ensures Lex("." + "" + rest) == None
  {
    var s := "." + rest;
    NameLengthIs(s, 0);
    assert s[0..] == s && s[..0] == "" && "." + "" + rest == s;
    assert |s| > 1 ==> s[1] == rest[0];
  }

  /** A bracketed key is read whole, or as an index. */
  lemma BracketedLoses(k: string, rest: string, n: int)
    requires PlainKey(k) && AtMost(Lex(rest), n)
    ensures AtMost(Lex("[" + k + "]" + rest), |k| + n)
    ensures AllDigits(k) ==> AtMost(Lex("[" + k + "]" + rest), n)
  {
    LexBracketed(k, rest);
    if Lex(rest).Some? {
      KeyTextCons(FieldOrIndex(k), Lex(rest).value);
    }
  }

  /** One printed segment. */
  lemma SegmentLoses(path: string, seg: Seg, rest: string, n: int)
    requires seg.Field? ==> PlainKey(seg.name)
    requires (rest != "" ==> rest[0] in {'.', '['}) && AtMost(Lex(rest), n)
    ensures var text, size := Printed(path, seg) + rest, if seg.Field? then |seg.name| else 0;
            && AtMost(Lex(text), size + n)
            && (seg.Field? && !KeyOk(seg.name, WrapsKeys(path)) ==> AtMost(Lex(text), size + n - 1))
  {
    match seg
    case Index(i) =>
      DecimalReadsBack(i);
      LexBracketed(Decimal(i), rest);
      if Lex(rest).Some? {
        KeyTextCons(Index(i), Lex(rest).value);
      }
    case Field(k) =>
      if WrapsKeys(path) {
        BracketedLoses(k, rest, n);
      } else {
        DottedLoses(k, rest, n);
      }
  }

  /** A printed path never reads as more key text than it has, and as less if some key is unsafe. */
  lemma {:induction false} PathLoses(path: string, segs: seq<Seg>)
    requires Plain(segs)
    ensures AtMost(Lex(PrintedAll(path, segs)), KeyText(segs))
    ensures !GoodSegs(path, segs) ==> AtMost(Lex(PrintedAll(path, segs)), KeyText(segs) - 1)
    decreases segs
  {
    if segs == [] {
      assert Lex("") == Some([]);
    } else {
      var x, rest, path' := segs[0], segs[1..], path + Printed(path, segs[0]);
      assert segs == [x] + rest;
      KeyTextCons(x, rest);
      PathLoses(path', rest);
      PrintedStart(path', rest);
      var text := PrintedAll(path', rest);
      SegmentLoses(path, x, text, KeyText(rest));
      if !GoodSegs(path', rest) {
        SegmentLoses(path, x, text, KeyText(rest) - 1);
      }
    }
  }

  lemma TextOfFirstKey(k: string, segs: seq<Seg>)
    ensures Text([Field(k)] + segs) == "." + (k + PrintedAll("." + k, segs))
    ensures TrimDot(Text([Field(k)] + segs)) == k + PrintedAll("." + k, segs)
  {
    var whole, rest := [Field(k)] + segs, PrintedAll("." + k, segs);
    assert whole[1..] == segs && "" + Printed("", Field(k)) == "." + k;
    assert "." + k + rest == "." + (k + rest);
  }

  /** The leading period that SetData trims does not matter to a path that begins with a nameable key. */
  lemma TrimmedReads(segs: seq<Seg>)
    requires segs != [] && Plain(segs) && Parse(TrimDot(Text(segs))).Some?
    ensures Lex(Text(segs)) == Parse(TrimDot(Text(segs)))
  {
    match segs[0]
    case Index(i) =>
      assert Printed("", segs[0])[0] == '[';
    case Field(k) =>
      assert segs == [Field(k)] + segs[1..];
      TextOfFirstKey(k, segs[1..]);
      DotInFront(k + PrintedAll("." + k, segs[1..]));
  }

  lemma DotInFront(s: string)
    requires s != "" && s[0] != '[' && s[0] != ']' && Parse(s).Some?
    ensures Lex("." + s) == Parse(s)
  {
    var t := "." + s;
    NameLengthIs(t, 0);
    assert t[0..] == t && t[..0] == "" && t[1..] == s && t[1] == s[0];
  }

  /**
   An unsafe path that is read at all is read as another one: with keys that are neither empty nor
   bracketed, and with less key text if its own keys were like that already.
   */
  lemma UnsafePathLoses(segs: seq<Seg>)
    requires segs != [] && !GoodSegs("", segs) && Parse(TrimDot(Text(segs))).Some?
    ensures Plain(Parse(TrimDot(Text(segs))).value)
    ensures Plain(segs) ==> KeyText(Parse(TrimDot(Text(segs))).value) < KeyText(segs)
  {
    LexIsPlain(TrimDot(Text(segs)));
    if Plain(segs) {
      TrimmedReads(segs);
      PathLoses("", segs);
    }
  }
}
