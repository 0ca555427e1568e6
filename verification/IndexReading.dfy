/** A path text with a list index in it is read as what stands before the index, the index, and what stands behind it. */
module IndexReading {
  import opened JsonTree
  import opened PathText

  function IndexText(i: nat): string {
    "[" + Decimal(i) + "]"
  }

  /** What is read before a list index, the index, and what is read after it. */
  function Around(before: Option<seq<Seg>>, i: nat, after: Option<seq<Seg>>): Option<seq<Seg>> {
    if before.None? || after.None? then None else Some(before.value + [Index(i)] + after.value)
  }

  lemma AroundPrepend(name: string, before: Option<seq<Seg>>, i: nat, after: Option<seq<Seg>>)
    ensures Prepend(name, Around(before, i, after)) == Around(Prepend(name, before), i, after)
  {
    if before.Some? && after.Some? && name != "" {
      assert [Field(name)] + (before.value + [Index(i)] + after.value) == ([Field(name)] + before.value) + [Index(i)] + after.value;
    }
  }

  lemma DigitsAreNoBrackets(k: string)
    requires AllDigits(k)
    ensures BracketFree(k)
  {
    assert '[' in k ==> IsDigit('[');
    assert ']' in k ==> IsDigit(']');
  }

  lemma ReadDigits(k: string, rest: string)
    requires k != "" && AllDigits(k)
    ensures Lex("[" + k + "]" + rest) == Around(Some([]), DecimalValue(k), Lex(rest))
  {
    DigitsAreNoBrackets(k);
    LexBracketed(k, rest);
    OnlyAround(DecimalValue(k), Lex(rest));
  }

  lemma OnlyAround(i: nat, after: Option<seq<Seg>>)
    ensures Around(Some([]), i, after) == if after.None? then None else Some([Index(i)] + after.value)
  {
    if after.Some? {
      assert [] + [Index(i)] + after.value == [Index(i)] + after.value;
    }
  }

  lemma ReadIndexFirst(i: nat, rest: string)
    ensures Lex(IndexText(i) + rest) == Around(Some([]), i, Lex(rest))
  {
    DecimalReadsBack(i);
    ReadDigits(Decimal(i), rest);
  }

  /** A name at the start is cut off the same way whatever follows the index. */
  lemma ReadName(s: string, n: nat)
    requires n == NameLength(s)
    ensures Lex(s) ==
      if n == |s| then Prepend(s, Some([]))
      else if s[n] == ']' then None
      else if s[n] == '[' then Prepend(s[..n], LexBracket(s[n..]))
      else if |s| == n + 1 || IsDelimiter(s[n + 1]) then None
      else Prepend(s[..n], Lex(s[n + 1..]))
  {
    assert n == |s| ==> s[..n] == s && s[n..] == "";
    if n < |s| {
      assert s[n..][0] == s[n] && s[n..][1..] == s[n + 1..];
    }
  }

  /** A bracket that is closed. */
  lemma ReadClosed(k: string, rest: string)
    requires ']' !in k
    ensures LexBracket("[" + k + "]" + rest) ==
      if k == "" || '[' in k || Lex(rest).None? then None else Some([FieldOrIndex(k)] + Lex(rest).value)
  {
    var s := "[" + k + "]" + rest;
    assert s[1..] == k + ("]" + rest);
    assert s[1..][|k|] == ']' && s[1..][..|k|] == k;
    IndexOfIs(s[1..], ']', |k|);
    assert s[1..][|k| + 1..] == rest;
  }

  lemma NotBefore(a: string, b: string, c: char)
    requires c !in a
    ensures |a| <= IndexOf(a + b, c)
  {
    assert forall j | 0 <= j < |a| :: (a + b)[j] == a[j] && a[j] in a;
  }

  /** One that is not closed before the next bracket opens cannot be read. */
  lemma ReadUnclosed(s: string, more: string)
    requires s != "" && s[0] == '[' && ']' !in s[1..] && more != "" && more[0] == '['
    ensures (s + more)[0] == '[' && LexBracket(s + more) == None && LexBracket(s) == None
  {
    var w, n := s + more, |s| - 1;
    var close := IndexOf(w[1..], ']');
    assert w[1..] == s[1..] + more && w[1..][n] == '[';
    NotBefore(s[1..], more, ']');
    assert close != n;
    assert w[1..][..close][n] == '[';
  }

  /** Where the name at the start of a text ends does not depend on what is appended behind a delimiter. */
  lemma NameThenMore(s: string, more: string, n: nat)
    requires n == NameLength(s) && (n < |s| || (more != "" && more[0] == '['))
    ensures NameLength(s + more) == n
    ensures (s + more)[..n] == s[..n] && (s + more)[n..] == s[n..] + more
    ensures n < |s| ==> (s + more)[n + 1..] == s[n + 1..] + more
  {
    Slices(s, more, n);
    assert n == |s| ==> (s + more)[n] == '[';
    assert n < |s| ==> (s + more)[n] == s[n];
    NameStays(s, more, n);
  }

  lemma NameStays(s: string, more: string, n: nat)
    requires n == NameLength(s) && (n < |s + more| ==> IsDelimiter((s + more)[n]))
    ensures NameLength(s + more) == n
  {
    assert forall i | 0 <= i < n :: (s + more)[i] == s[i];
    NameLengthIs(s + more, n);
  }

  lemma Slices(s: string, more: string, n: nat)
    requires n <= |s|
    ensures (s + more)[..n] == s[..n] && (s + more)[n..] == s[n..] + more
    ensures n < |s| ==> (s + more)[n + 1..] == s[n + 1..] + more
  {
  }

  lemma NameThenIndex(s: string, i: nat, rest: string)
    requires NameLength(s) == |s|
    ensures Lex(s + (IndexText(i) + rest)) == Around(Lex(s), i, Lex(rest))
  {
    var more := IndexText(i) + rest;
    NameThenMore(s, more, |s|);
    NameThenMore("", more, 0);
    ReadName(s + more, |s|);
    ReadName(s, |s|);
    assert "" + more == more && s[|s|..] + more == more;
    ReadName(more, 0);
    ReadIndexFirst(i, rest);
    AroundPrepend(s, Some([]), i, Lex(rest));
  }

  lemma PeriodThenIndex(s: string, n: nat, i: nat, rest: string)
    requires n == NameLength(s) < |s| && s[n] == '.'
    requires Lex(s[n + 1..] + (IndexText(i) + rest)) == Around(Lex(s[n + 1..]), i, Lex(rest))
    ensures Lex(s + (IndexText(i) + rest)) == Around(Lex(s), i, Lex(rest))
  {
    var more := IndexText(i) + rest;
    var w := s + more;
    NameThenMore(s, more, n);
    ReadName(w, n);
    ReadName(s, n);
    if n + 1 == |s| {
      assert w[n + 1] == '[';
    } else {
      assert w[n + 1] == s[n + 1];
    }
    AroundPrepend(s[..n], Lex(s[n + 1..]), i, Lex(rest));
  }

  lemma NameThenBracket(s: string, n: nat, i: nat, rest: string)
    requires n == NameLength(s) < |s| && s[n] == '['
    requires LexBracket(s[n..] + (IndexText(i) + rest)) == Around(LexBracket(s[n..]), i, Lex(rest))
    ensures Lex(s + (IndexText(i) + rest)) == Around(Lex(s), i, Lex(rest))
  {
    var more := IndexText(i) + rest;
    NameThenMore(s, more, n);
    ReadName(s + more, n);
    ReadName(s, n);
    AroundPrepend(s[..n], LexBracket(s[n..]), i, Lex(rest));
  }

  lemma StrayBracket(s: string, n: nat, i: nat, rest: string)
    requires n == NameLength(s) < |s| && s[n] == ']'
    ensures Lex(s + (IndexText(i) + rest)) == None && Lex(s) == None
  {
    NameThenMore(s, IndexText(i) + rest, n);
    ReadName(s + (IndexText(i) + rest), n);
    ReadName(s, n);
  }

  /** Before a list index and behind it the text is read independently. */
  lemma {:induction false} ReadIndex(s: string, i: nat, rest: string)
    ensures Lex(s + (IndexText(i) + rest)) == Around(Lex(s), i, Lex(rest))
    decreases |s|, 1
  {
    var n := NameLength(s);
    if n == |s| {
      NameThenIndex(s, i, rest);
    } else if s[n] == '[' {
      BracketThenIndex(s[n..], i, rest);
      NameThenBracket(s, n, i, rest);
    } else if s[n] == '.' {
      ReadIndex(s[n + 1..], i, rest);
      PeriodThenIndex(s, n, i, rest);
    } else {
      StrayBracket(s, n, i, rest);
    }
  }

  lemma {:induction false} BracketThenIndex(s: string, i: nat, rest: string)
    requires s != "" && s[0] == '['
    ensures (s + (IndexText(i) + rest))[0] == '['
    ensures LexBracket(s + (IndexText(i) + rest)) == Around(LexBracket(s), i, Lex(rest))
    decreases |s|, 0
  {
    var more, n := IndexText(i) + rest, IndexOf(s[1..], ']');
    if n == |s| - 1 {
      assert s[1..][..n] == s[1..];
      ReadUnclosed(s, more);
    } else {
      var k, tail := s[1..][..n], s[n + 2..];
      assert s == "[" + k + "]" + tail;
      assert s + more == "[" + k + "]" + (tail + more);
      ReadClosed(k, tail);
      ReadClosed(k, tail + more);
      ReadIndex(tail, i, rest);
      if Lex(tail).Some? && Lex(rest).Some? {
        AroundHead(FieldOrIndex(k), Lex(tail), i, Lex(rest));
      }
    }
  }

  lemma AroundHead(seg: Seg, before: Option<seq<Seg>>, i: nat, after: Option<seq<Seg>>)
    requires before.Some? && after.Some?
    ensures [seg] + Around(before, i, after).value == ([seg] + before.value) + [Index(i)] + after.value
  {
  }

  // ---------------------------------------------------------------- two elements of one list

  predicate Comparable(p: seq<Seg>, q: seq<Seg>) {
    p <= q || q <= p
  }

  /** Not both texts can be read, or they lead to places neither of which is above the other. */
  predicate Apart(s: string, t: string) {
    ReadsAs(s).Some? && ReadsAs(t).Some? ==> !Comparable(ReadsAs(s).value, ReadsAs(t).value)
  }

  lemma TrimBefore(path: string, more: string)
    requires more != "" && more[0] == '['
    ensures TrimDot(path + more) == TrimDot(path) + more
  {
    assert path == "" ==> path + more == more;
    assert path != "" ==> (path + more)[0] == path[0] && (path + more)[1..] == path[1..] + more;
  }

  lemma ReadsThrough(path: string, i: nat, rest: string)
    requires ReadsAs(path + (IndexText(i) + rest)).Some?
    ensures ReadsAs(path + (IndexText(i) + rest)) == Around(Lex(TrimDot(path)), i, Lex(rest))
  {
    TrimBefore(path, IndexText(i) + rest);
    ReadIndex(TrimDot(path), i, rest);
  }

  lemma DifferentIndexes(before: seq<Seg>, i: nat, after: seq<Seg>, j: nat, after2: seq<Seg>)
    requires i != j
    ensures !Comparable(before + [Index(i)] + after, before + [Index(j)] + after2)
  {
    assert (before + [Index(i)] + after)[|before|] == Index(i);
    assert (before + [Index(j)] + after2)[|before|] == Index(j);
  }

  /** Texts of different elements of a list lead to places apart, whatever the keys before and behind. */
  lemma ItemsApart(path: string, i: nat, rest: string, j: nat, rest2: string)
    requires i != j
    ensures Apart(path + (IndexText(i) + rest), path + (IndexText(j) + rest2))
  {
    if ReadsAs(path + (IndexText(i) + rest)).Some? && ReadsAs(path + (IndexText(j) + rest2)).Some? {
      ReadsThrough(path, i, rest);
      ReadsThrough(path, j, rest2);
      DifferentIndexes(Lex(TrimDot(path)).value, i, Lex(rest).value, j, Lex(rest2).value);
    }
  }
}
