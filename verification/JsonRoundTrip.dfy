/**
 What is printed reads back: the parser undoes the printer, for every document without a float.

 The proof keeps three things apart that the solver handles badly together: where a text stands in
 the whole, what the printer makes of a document, and what the parser does at a position.

 - A text stands at a position when its characters are there. Standing is taken apart only by the
   lemmas about it, one concatenation at a time, so no proof has to look inside a text.
 - Characters, numbers and strings read back one by one. An escaped text is read through a relation
   that says where each of its characters ends, for any way of escaping that is readable.
 - A list is read through a chain: for each of its texts where it starts and where it ends, a comma
   and blank space between, and a closing bracket after the last. A chain is made from the printed
   texts without knowing what they are, and read by the parser without knowing how they were printed.
 - A document reads back wherever it stands, by induction on the document: its items or fields read
   back where they stand, which is what makes the chain.

 What may follow a value matters only for numbers, since digits could go on: a value is followed by
 the end of the text or by a character that no number goes on with.
 */
module JsonRoundTrip {
  import opened Basics
  import opened Wrappers
  import opened Json

  predicate FloatFree(d: Doc)
    decreases d
  {
    match d
    case Float(_) => false
    case Arr(items) => forall i :: 0 <= i < |items| ==> FloatFree(items[i])
    case Obj(fields) => forall i :: 0 <= i < |fields| ==> FloatFree(fields[i].value)
    case _ => true
  }

  // ----- text in place -------------------------------------------------------------------------

  lemma StandsParts(s: string, i: nat, a: string, b: string)
    requires Stands(s, i, a + b)
    ensures Stands(s, i, a) && Stands(s, i + |a|, b)
  {
    forall k | 0 <= k < |a| ensures SameAt(s, i, a, k) {
      assert SameAt(s, i, a + b, k);
    }
    var j := i + |a|;
    forall k | 0 <= k < |b| ensures SameAt(s, j, b, k) {
      assert SameAt(s, i, a + b, |a| + k);
    }
  }

  lemma Peek(s: string, i: nat, t: string)
    requires Stands(s, i, t) && t != []
    ensures s[i] == t[0] && (|t| > 1 ==> s[i + 1] == t[1])
  {
    assert SameAt(s, i, t, 0);
    assert |t| > 1 ==> SameAt(s, i, t, 1);
  }

  lemma StandsTail(s: string, i: nat, t: string)
    requires Stands(s, i, t) && t != []
    ensures Stands(s, i + 1, t[1..])
  {
    assert t == [t[0]] + t[1..];
    StandsParts(s, i, [t[0]], t[1..]);
  }

  lemma StandsSlice(s: string, i: nat, t: string)
    requires Stands(s, i, t)
    ensures s[i..i + |t|] == t
  {
    forall k | 0 <= k < |t| ensures s[i..i + |t|][k] == t[k] {
      assert SameAt(s, i, t, k);
    }
  }

  predicate Blank(t: string) { forall k :: 0 <= k < |t| ==> IsWs(t[k]) }

  /** Whitespace is skipped up to the first character that is none. */
  lemma {:induction false} SkipsBlank(s: string, i: nat, t: string)
    requires Stands(s, i, t) && Blank(t)
    requires i + |t| == |s| || !IsWs(s[i + |t|])
    ensures SkipWs(s, i) == i + |t|
    decreases |t|
  {
    if t != [] {
      Peek(s, i, t);
      StandsTail(s, i, t);
      SkipsBlank(s, i + 1, t[1..]);
    }
  }

  /** What follows a value is the end, or a character that no number goes on with. */
  predicate AfterValue(s: string, i: nat) {
    i == |s| || (i < |s| && !IsDigit(s[i]) && s[i] != '.' && s[i] != 'e' && s[i] != 'E')
  }

  // ----- numbers -------------------------------------------------------------------------------

  lemma {:induction false} DigitsShape(n: nat)
    ensures forall k :: 0 <= k < |Digits(n)| ==> IsDigit(Digits(n)[k])
    ensures |Digits(n)| > 1 ==> Digits(n)[0] != '0'
    ensures n > 0 ==> Digits(n)[0] != '0'
    ensures ValueOf(Digits(n)) == n
  {
    if n >= 10 {
      DigitsShape(n / 10);
      assert Digits(n)[..|Digits(n)| - 1] == Digits(n / 10);
      assert Digits(n)[0] == Digits(n / 10)[0];
    } else {
      assert Digits(n)[..0] == [];
    }
  }

  lemma {:induction false} DigitsEndAt(s: string, i: nat, t: string)
    requires Stands(s, i, t) && (forall k :: 0 <= k < |t| ==> IsDigit(t[k]))
    requires i + |t| == |s| || !IsDigit(s[i + |t|])
    ensures DigitsEnd(s, i) == i + |t|
    decreases |t|
  {
    if t != [] {
      Peek(s, i, t);
      StandsTail(s, i, t);
      DigitsEndAt(s, i + 1, t[1..]);
    }
  }

  /** Digits, of which the first is no zero unless it is the only one. */
  predicate Numeral(t: string) {
    t != [] && (forall k :: 0 <= k < |t| ==> IsDigit(t[k])) && (|t| > 1 ==> t[0] != '0')
  }

  lemma NumeralReadsBack(s: string, i: nat, t: string)
    requires Numeral(t) && Stands(s, i, t) && AfterValue(s, i + |t|)
    ensures NatAt(s, i) == Some((ValueOf(t), i + |t|)) && IsDigit(s[i])
  {
    DigitsEndAt(s, i, t);
    StandsSlice(s, i, t);
    Peek(s, i, t);
  }

  lemma PositiveReadsBack(s: string, i: nat, t: string)
    requires Numeral(t) && Stands(s, i, t) && AfterValue(s, i + |t|)
    ensures NumberAt(s, i) == Some((Num(ValueOf(t)), i + |t|)) && IsDigit(s[i])
  {
    NumeralReadsBack(s, i, t);
  }

  lemma NegativeReadsBack(s: string, i: nat, t: string)
    requires Numeral(t) && Stands(s, i, "-" + t) && AfterValue(s, i + 1 + |t|)
    ensures i < |s| && s[i] == '-' && NumberAt(s, i) == Some((Num(-(ValueOf(t) as int)), i + 1 + |t|))
  {
    StandsParts(s, i, "-", t);
    Peek(s, i, "-");
    NumeralReadsBack(s, i + 1, t);
  }

  /** What `Decimal` writes is the numeral of its size, with a minus when it is negative. */
  lemma DecimalIs(n: int) returns (t: string)
    ensures Numeral(t) && ValueOf(t) == (if n < 0 then -n else n) && Decimal(n) == if n < 0 then "-" + t else t
  {
    t := Digits(if n < 0 then -n else n);
    DigitsShape(if n < 0 then -n else n);
  }

  lemma NumberReadsBack(s: string, i: nat, n: int)
    requires Stands(s, i, Decimal(n)) && AfterValue(s, i + |Decimal(n)|)
    ensures NumberAt(s, i) == Some((Num(n), i + |Decimal(n)|)) && (IsDigit(s[i]) || s[i] == '-')
  {
    var t := DecimalIs(n);
    if n < 0 {
      NegativeReadsBack(s, i, t);
    } else {
      PositiveReadsBack(s, i, t);
    }
  }

  // ----- strings -------------------------------------------------------------------------------

  lemma HexReadsBack(c: char)
    requires c < ' '
    ensures HexDigit(HEX[c as int / 16]) == Some(c as int / 16) && HexDigit(HEX[c as int % 16]) == Some(c as int % 16)
  {
  }

  lemma ControlReadsBack(s: string, i: nat, c: char)
    requires c < ' ' && Stands(s, i, "u00" + [HEX[c as int / 16], HEX[c as int % 16]])
    ensures Unescape(s, i) == Some((c, i + 5))
  {
    var t := "u00" + [HEX[c as int / 16], HEX[c as int % 16]];
    Peek(s, i, t);
    assert SameAt(s, i, t, 2) && SameAt(s, i, t, 3) && SameAt(s, i, t, 4);
    HexReadsBack(c);
    assert Hex4(s, i + 1) == Some(c as int / 16 * 16 + c as int % 16);
  }

  /** An escaped character reads back, whichever way it was escaped. */
  lemma CharReadsBack(s: string, i: nat, c: char)
    requires Stands(s, i, Escape(c))
    ensures CharAt(s, i) == Some((c, i + |Escape(c)|)) && s[i] != '\"'
  {
    Peek(s, i, Escape(c));
    if |Escape(c)| == 6 {
      var t := "u00" + [HEX[c as int / 16], HEX[c as int % 16]];
      assert Escape(c) == "\\" + t;
      StandsParts(s, i, "\\", t);
      ControlReadsBack(s, i + 1, c);
    }
  }

  lemma CharsStep(s: string, i: nat, c: char, j: nat, rest: string, end: nat)
    requires i < |s| && s[i] != '\"' && CharAt(s, i) == Some((c, j)) && j <= |s| && Chars(s, j) == Some((rest, end))
    ensures Chars(s, i) == Some(([c] + rest, end))
  {
  }

  lemma CharsSplit(s: string, i: nat, first: string, rest: string)
    requires Stands(s, i, (first + rest) + "\"")
    ensures Stands(s, i, first) && Stands(s, i + |first|, rest + "\"")
  {
    Regroup(first, rest, "\"");
    StandsParts(s, i, first, rest + "\"");
  }

  /** The characters of `t` stand one after another from i, and then a quote at `end`. */
  ghost predicate CharsStand(s: string, i: nat, t: string, end: nat)
    decreases |t|
  {
    if t == [] then i == end && end < |s| && s[end] == '\"'
    else exists j :: CharStands(s, i, t[0], j) && CharsStand(s, j, t[1..], end)
  }

  ghost predicate CharStands(s: string, i: nat, c: char, j: nat) {
    i < j <= |s| && s[i] != '\"' && CharAt(s, i) == Some((c, j))
  }

  /** Each character stands as `escape` writes it, wherever that does. */
  ghost predicate Readable(s: string, escape: char -> string) {
    forall i: nat, c :: Stands(s, i, escape(c)) ==> CharStands(s, i, c, i + |escape(c)|)
  }

  lemma {:induction false} TextStands(s: string, i: nat, escape: char -> string, t: string)
    requires Readable(s, escape) && Stands(s, i, Escaped(escape, t) + "\"")
    ensures CharsStand(s, i, t, i + |Escaped(escape, t)|)
    decreases |t|
  {
    if t == [] {
      assert Escaped(escape, t) + "\"" == "\"";
      Peek(s, i, "\"");
    } else {
      CharsSplit(s, i, escape(t[0]), Escaped(escape, t[1..]));
      TextStands(s, i + |escape(t[0])|, escape, t[1..]);
      assert CharStands(s, i, t[0], i + |escape(t[0])|);
    }
  }

  lemma EscapesAreReadable(s: string)
    ensures Readable(s, Escape)
  {
    forall i: nat, c | Stands(s, i, Escape(c)) ensures CharStands(s, i, c, i + |Escape(c)|) {
      CharReadsBack(s, i, c);
    }
  }

  lemma CharsEnd(s: string, i: nat)
    requires i < |s| && s[i] == '\"'
    ensures Chars(s, i) == Some(([], i + 1))
  {
  }

  lemma {:induction false} CharsReadBack(s: string, i: nat, t: string, end: nat)
    requires CharsStand(s, i, t, end)
    ensures i <= |s| && Chars(s, i) == Some((t, end + 1))
    decreases |t|
  {
    if t == [] {
      CharsEnd(s, i);
    } else {
      var j :| CharStands(s, i, t[0], j) && CharsStand(s, j, t[1..], end);
      CharsReadBack(s, j, t[1..], end);
      CharsStep(s, i, t[0], j, t[1..], end + 1);
      assert t == [t[0]] + t[1..];
    }
  }

  lemma StringReadsBack(s: string, i: nat, t: string)
    requires Stands(s, i, Quoted(t))
    ensures StringAt(s, i) == Some((t, i + |Quoted(t)|)) && s[i] == '\"'
  {
    EscapesAreReadable(s);
    QuotedReadsBack(s, i, Escape, t);
  }

  lemma QuotedReadsBack(s: string, i: nat, escape: char -> string, t: string)
    requires Readable(s, escape) && Stands(s, i, "\"" + Escaped(escape, t) + "\"")
    ensures StringAt(s, i) == Some((t, i + |"\"" + Escaped(escape, t) + "\""|)) && s[i] == '\"'
  {
    var inside := Escaped(escape, t);
    Regroup("\"", inside, "\"");
    StandsParts(s, i, "\"", inside + "\"");
    Peek(s, i, "\"");
    TextStands(s, i + 1, escape, t);
    CharsReadBack(s, i + 1, t, i + 1 + |inside|);
  }

  // ----- lists ---------------------------------------------------------------------------------

  predicate Solid(t: string) { t != [] && !IsWs(t[0]) && t[0] != ']' && t[0] != '}' }

  /** Blank space from i, then `close`. */
  predicate Closes(s: string, i: nat, close: char) {
    && i <= |s| && AfterValue(s, i)
    && SkipWs(s, i) < |s| && s[SkipWs(s, i)] == close
  }

  /** Closing text: blank space and one character. */
  lemma ClosesAfter(s: string, i: nat, blank: string, close: char)
    requires Blank(blank) && !IsWs(close) && Stands(s, i, blank + [close])
    requires AfterValue(s, i)
    ensures Closes(s, i, close) && SkipWs(s, i) + 1 == i + |blank + [close]|
  {
    StandsParts(s, i, blank, [close]);
    Peek(s, i + |blank|, [close]);
    SkipsBlank(s, i, blank);
  }

  /** A comma and blank space: what stands between two of a list. */
  predicate Gap(gap: string) { gap != [] && gap[0] == ',' && Blank(gap[1..]) }

  /** Blank space before a text is skipped up to it. */
  lemma SkipsLead(s: string, i: nat, blank: string, t: string)
    requires Stands(s, i, blank) && Blank(blank) && Solid(t) && Stands(s, i + |blank|, t)
    ensures SkipWs(s, i) == i + |blank|
  {
    Peek(s, i + |blank|, t);
    SkipsBlank(s, i, blank);
  }

  /** From a text that has been read on to the next one: a comma and the space before it. */
  lemma StepsToNext(s: string, v: nat, gap: string, next: string, rest: string)
    requires Solid(next) && Gap(gap) && Stands(s, v, gap + (next + rest))
    ensures AfterValue(s, v) && v < |s| && s[v] == ',' && SkipWs(s, v) == v
    ensures SkipWs(s, v + 1) == v + |gap|
    ensures Stands(s, v + |gap|, next + rest)
  {
    StandsParts(s, v, gap, next + rest);
    Peek(s, v, gap);
    StandsParts(s, v + |gap|, next, rest);
    StandsTail(s, v, gap);
    SkipsLead(s, v + 1, gap[1..], next);
  }

  /** Whether the k-th of a list, starting at i, ends at v. */
  type Reads = (nat, nat, nat) -> bool

  /** The list from its k-th on: each read where it starts, a comma and space between, and `close` at the end. */
  ghost predicate Chain(s: string, ends: Reads, n: nat, k: nat, i: nat, close: char, end: nat)
    decreases n - k
  {
    && k < n
    && exists v: nat ::
        && ends(k, i, v) && i < v < |s|
        && if k + 1 == n then Closes(s, v, close) && end == SkipWs(s, v) + 1
           else SkipWs(s, v) == v && s[v] == ',' && Chain(s, ends, n, k + 1, SkipWs(s, v + 1), close, end)
  }

  lemma OneLink(s: string, ends: Reads, n: nat, k: nat, i: nat, v: nat, close: char, end: nat)
    requires k < n && ends(k, i, v) && i < v < |s|
    requires if k + 1 == n then Closes(s, v, close) && end == SkipWs(s, v) + 1
             else SkipWs(s, v) == v && s[v] == ',' && Chain(s, ends, n, k + 1, SkipWs(s, v + 1), close, end)
    ensures Chain(s, ends, n, k, i, close, end)
  {
  }

  /** The first link of a chain. */
  lemma FirstLink(s: string, ends: Reads, n: nat, k: nat, i: nat, close: char, end: nat) returns (v: nat)
    requires Chain(s, ends, n, k, i, close, end)
    ensures k < n && ends(k, i, v) && i < v < |s|
    ensures if k + 1 == n then Closes(s, v, close) && end == SkipWs(s, v) + 1
            else SkipWs(s, v) == v && s[v] == ',' && Chain(s, ends, n, k + 1, SkipWs(s, v + 1), close, end)
  {
    v :| && ends(k, i, v) && i < v < |s|
         && if k + 1 == n then Closes(s, v, close) && end == SkipWs(s, v) + 1
            else SkipWs(s, v) == v && s[v] == ',' && Chain(s, ends, n, k + 1, SkipWs(s, v + 1), close, end);
  }

  /** Each text is read where it stands, if a value may end there. */
  ghost predicate ReadsTexts(s: string, ends: Reads, texts: seq<string>) {
    forall k: nat, i: nat :: k < |texts| && Stands(s, i, texts[k]) && AfterValue(s, i + |texts[k]|) ==>
      ends(k, i, i + |texts[k]|)
  }

  ghost predicate AllSolid(texts: seq<string>) { forall k :: 0 <= k < |texts| ==> SolidAt(texts, k) }

  ghost predicate SolidAt(texts: seq<string>, k: nat) { k < |texts| && Solid(texts[k]) }

  lemma {:induction false} TextsChain(s: string, ends: Reads, texts: seq<string>, k: nat, gap: string,
                                      i: nat, e: nat, close: char)
    requires k < |texts| && ReadsTexts(s, ends, texts) && AllSolid(texts) && Gap(gap)
    requires Stands(s, i, texts[k] + Tail(texts, k + 1, gap))
    requires e == i + |texts[k] + Tail(texts, k + 1, gap)| && Closes(s, e, close)
    ensures Chain(s, ends, |texts|, k, i, close, SkipWs(s, e) + 1)
    decreases |texts| - k
  {
    var here, rest := texts[k], Tail(texts, k + 1, gap);
    StandsParts(s, i, here, rest);
    var v := i + |here|;
    assert SolidAt(texts, k);
    if k + 1 < |texts| {
      assert SolidAt(texts, k + 1);
      StepsToNext(s, v, gap, texts[k + 1], Tail(texts, k + 2, gap));
      TextsChain(s, ends, texts, k + 1, gap, v + |gap|, e, close);
    }
    assert ends(k, i, v);
    OneLink(s, ends, |texts|, k, i, v, close, SkipWs(s, e) + 1);
  }

  /** Where a list's text puts its first and its end. */
  lemma OpensAt(s: string, i: nat, open: string, first: string, rest: string, close: string)
    requires Solid(first) && open != [] && Blank(open[1..])
    requires Stands(s, i, open + ((first + rest) + close))
    ensures i < |s| && s[i] == open[0]
    ensures var j := i + |open|;
            && SkipWs(s, i + 1) == j && j < |s| && s[j] != ']' && s[j] != '}'
            && Stands(s, j, first + rest)
            && Stands(s, j + |first + rest|, close)
  {
    StandsParts(s, i, open, (first + rest) + close);
    StandsParts(s, i + |open|, first + rest, close);
    StandsParts(s, i + |open|, first, rest);
    Peek(s, i, open);
    Peek(s, i + |open|, first);
    StandsTail(s, i, open);
    SkipsLead(s, i + 1, open[1..], first);
  }

  /** What stands at i is a list: an opening bracket, its chain, and the end just past its closing one. */
  ghost predicate ListStands(s: string, ends: Reads, n: nat, i: nat, open: char, close: char, end: nat) {
    && i < |s| && s[i] == open
    && var j := SkipWs(s, i + 1);
       j < |s| && s[j] != ']' && s[j] != '}' && Chain(s, ends, n, 0, j, close, end)
  }

  lemma ListedStands(s: string, i: nat, ends: Reads, open: string, texts: seq<string>, gap: string, blank: string,
                     close: char)
    requires texts != [] && ReadsTexts(s, ends, texts) && AllSolid(texts)
    requires open != [] && Blank(open[1..]) && Gap(gap) && Blank(blank) && (close == ']' || close == '}')
    requires Stands(s, i, Listed(open, texts, gap, blank + [close]))
    ensures ListStands(s, ends, |texts|, i, open[0], close, i + |Listed(open, texts, gap, blank + [close])|)
  {
    var rest := Tail(texts, 1, gap);
    assert SolidAt(texts, 0);
    OpensAt(s, i, open, texts[0], rest, blank + [close]);
    var j := i + |open|;
    var e := j + |texts[0] + rest|;
    EndsThere(s, e, blank, close);
    TextsChain(s, ends, texts, 0, gap, j, e, close);
  }

  lemma EndsThere(s: string, e: nat, blank: string, close: char)
    requires Blank(blank) && (close == ']' || close == '}') && Stands(s, e, blank + [close])
    ensures Closes(s, e, close) && SkipWs(s, e) + 1 == e + |blank + [close]|
  {
    Peek(s, e, blank + [close]);
    ClosesAfter(s, e, blank, close);
  }

  lemma LineStands(s: string, i: nat, ends: Reads, texts: seq<string>)
    requires texts != [] && ReadsTexts(s, ends, texts) && AllSolid(texts)
    requires Stands(s, i, Line(texts))
    ensures ListStands(s, ends, |texts|, i, '[', ']', i + |Line(texts)|)
  {
    assert "" + [']'] == "]";
    ListedStands(s, i, ends, "[", texts, ", ", "", ']');
  }

  lemma BlockStands(s: string, i: nat, ends: Reads, open: char, texts: seq<string>, depth: nat, close: char)
    requires texts != [] && ReadsTexts(s, ends, texts) && AllSolid(texts)
    requires (close == ']' || close == '}') && Stands(s, i, Block([open], texts, depth, [close]))
    ensures ListStands(s, ends, |texts|, i, open, close, i + |Block([open], texts, depth, [close])|)
  {
    var lead := "\n" + Spaces(depth + 1);
    assert ([open] + lead)[1..] == lead && ("," + lead)[1..] == lead;
    ListedStands(s, i, ends, [open] + lead, texts, "," + lead, "\n" + Spaces(depth), close);
  }

  // ----- documents -----------------------------------------------------------------------------

  function ReadsItems(s: string, items: seq<Doc>): Reads {
    (k: nat, i: nat, v: nat) => k < |items| && i <= |s| && ValueAt(s, i) == Some((items[k], v))
  }

  function ReadsFields(s: string, fields: seq<Field>): Reads {
    (k: nat, i: nat, v: nat) => k < |fields| && i <= |s| && FieldAt(s, i) == Some((fields[k], v))
  }

  lemma FromHere<T>(s: seq<T>, k: nat)
    requires k < |s|
    ensures s[k..] == [s[k]] + s[k + 1..]
  {
  }

  lemma ItemsCons(s: string, i: nat, d: Doc, v: nat, rest: seq<Doc>, end: nat)
    requires i <= |s| && v < |s| && ValueAt(s, i) == Some((d, v)) && SkipWs(s, v) == v && s[v] == ','
    requires ItemsAt(s, SkipWs(s, v + 1)) == Some((rest, end))
    ensures ItemsAt(s, i) == Some(([d] + rest, end))
  {
  }

  lemma ItemsStep(s: string, items: seq<Doc>, k: nat, i: nat, v: nat, end: nat)
    requires k < |items| && ReadsItems(s, items)(k, i, v) && v < |s| && SkipWs(s, v) == v && s[v] == ','
    requires ItemsAt(s, SkipWs(s, v + 1)) == Some((items[k + 1..], end))
    ensures i <= |s| && ItemsAt(s, i) == Some((items[k..], end))
  {
    ItemsCons(s, i, items[k], v, items[k + 1..], end);
    FromHere(items, k);
  }

  lemma ItemsLast(s: string, items: seq<Doc>, k: nat, i: nat, v: nat)
    requires k + 1 == |items| && ReadsItems(s, items)(k, i, v) && v < |s| && Closes(s, v, ']')
    ensures i <= |s| && ItemsAt(s, i) == Some((items[k..], SkipWs(s, v) + 1))
  {
    assert items[k..] == [items[k]];
  }

  lemma {:induction false} ItemsReadBack(s: string, items: seq<Doc>, ends: Reads, k: nat, i: nat, end: nat)
    requires ends == ReadsItems(s, items) && Chain(s, ends, |items|, k, i, ']', end)
    ensures k < |items| && i <= |s| && ItemsAt(s, i) == Some((items[k..], end))
    decreases |items| - k
  {
    var v := FirstLink(s, ends, |items|, k, i, ']', end);
    if k + 1 < |items| {
      ItemsReadBack(s, items, ends, k + 1, SkipWs(s, v + 1), end);
      ItemsStep(s, items, k, i, v, end);
    } else {
      ItemsLast(s, items, k, i, v);
    }
  }

  lemma FieldsCons(s: string, i: nat, d: Field, v: nat, rest: seq<Field>, end: nat)
    requires i <= |s| && v < |s| && FieldAt(s, i) == Some((d, v)) && SkipWs(s, v) == v && s[v] == ','
    requires FieldsAt(s, SkipWs(s, v + 1)) == Some((rest, end))
    ensures FieldsAt(s, i) == Some(([d] + rest, end))
  {
  }

  lemma FieldsStep(s: string, fields: seq<Field>, k: nat, i: nat, v: nat, end: nat)
    requires k < |fields| && ReadsFields(s, fields)(k, i, v) && v < |s| && SkipWs(s, v) == v && s[v] == ','
    requires FieldsAt(s, SkipWs(s, v + 1)) == Some((fields[k + 1..], end))
    ensures i <= |s| && FieldsAt(s, i) == Some((fields[k..], end))
  {
    FieldsCons(s, i, fields[k], v, fields[k + 1..], end);
    FromHere(fields, k);
  }

  lemma FieldsLast(s: string, fields: seq<Field>, k: nat, i: nat, v: nat)
    requires k + 1 == |fields| && ReadsFields(s, fields)(k, i, v) && v < |s| && Closes(s, v, '}')
    ensures i <= |s| && FieldsAt(s, i) == Some((fields[k..], SkipWs(s, v) + 1))
  {
    assert fields[k..] == [fields[k]];
  }

  lemma {:induction false} FieldsReadBack(s: string, fields: seq<Field>, ends: Reads, k: nat, i: nat, end: nat)
    requires ends == ReadsFields(s, fields) && Chain(s, ends, |fields|, k, i, '}', end)
    ensures k < |fields| && i <= |s| && FieldsAt(s, i) == Some((fields[k..], end))
    decreases |fields| - k
  {
    var v := FirstLink(s, ends, |fields|, k, i, '}', end);
    if k + 1 < |fields| {
      FieldsReadBack(s, fields, ends, k + 1, SkipWs(s, v + 1), end);
      FieldsStep(s, fields, k, i, v, end);
    } else {
      FieldsLast(s, fields, k, i, v);
    }
  }

  lemma ArrayReadsBack(s: string, i: nat, items: seq<Doc>, end: nat)
    requires items != [] && ListStands(s, ReadsItems(s, items), |items|, i, '[', ']', end)
    ensures ValueAt(s, i) == Some((Arr(items), end))
  {
    ItemsReadBack(s, items, ReadsItems(s, items), 0, SkipWs(s, i + 1), end);
    assert items[0..] == items;
  }

  lemma ObjectReadsBack(s: string, i: nat, fields: seq<Field>, end: nat)
    requires fields != [] && ListStands(s, ReadsFields(s, fields), |fields|, i, '{', '}', end)
    ensures ValueAt(s, i) == Some((Obj(fields), end))
  {
    FieldsReadBack(s, fields, ReadsFields(s, fields), 0, SkipWs(s, i + 1), end);
    assert fields[0..] == fields;
  }

  lemma StartsSolid(d: Doc, depth: nat)
    requires FloatFree(d)
    ensures Solid(Printed(d, depth))
  {
    if d.Num? {
      DigitsShape(if d.n < 0 then -d.n else d.n);
    }
  }

  /** A name, a colon, a space and a value read back as a field. */
  lemma FieldReadsBack(s: string, i: nat, f: Field, value: string, start: nat)
    requires Stands(s, i, FieldText(f.name, value)) && Solid(value) && start == i + |Quoted(f.name)| + 2
    requires start <= |s| && ValueAt(s, start) == Some((f.value, start + |value|))
    ensures FieldAt(s, i) == Some((f, start + |value|))
  {
    var j := i + |Quoted(f.name)|;
    FieldParts(s, i, Quoted(f.name), value);
    StringReadsBack(s, i, f.name);
    FieldIs(s, i, f, j, start + |value|);
  }

  lemma FieldParts(s: string, i: nat, name: string, value: string)
    requires Stands(s, i, name + (": " + value)) && Solid(value)
    ensures var j := i + |name|;
            Stands(s, i, name) && j < |s| && s[j] == ':' && SkipWs(s, j) == j && SkipWs(s, j + 1) == j + 2
  {
    StandsParts(s, i, name, ": " + value);
    var j := i + |name|;
    StandsParts(s, j, ": ", value);
    Peek(s, j, ": ");
    StandsTail(s, j, ": ");
    SkipsLead(s, j + 1, " ", value);
  }

  lemma FieldIs(s: string, i: nat, f: Field, j: nat, end: nat)
    requires StringAt(s, i) == Some((f.name, j)) && j < |s| && s[j] == ':' && SkipWs(s, j) == j
    requires SkipWs(s, j + 1) == j + 2 && ValueAt(s, j + 2) == Some((f.value, end))
    ensures FieldAt(s, i) == Some((f, end))
  {
  }

  /** A value reads back wherever it stands. */
  lemma {:induction false} ValueReadsBack(d: Doc, depth: nat, s: string, i: nat, text: string)
    requires FloatFree(d) && text == Printed(d, depth) && Stands(s, i, text) && AfterValue(s, i + |text|)
    ensures ValueAt(s, i) == Some((d, i + |text|))
    decreases d
  {
    match d
    case Arr(items) => ArrayValue(items, depth, s, i, text);
    case Obj(fields) => ObjectValue(fields, depth, s, i, text);
    case _ => ScalarReadsBack(d, depth, s, i, text);
  }

  lemma ScalarReadsBack(d: Doc, depth: nat, s: string, i: nat, text: string)
    requires Scalar(d) && FloatFree(d) && text == Printed(d, depth)
    requires Stands(s, i, text) && AfterValue(s, i + |text|)
    ensures ValueAt(s, i) == Some((d, i + |text|))
  {
    match d
    case Num(n) => NumberValue(s, i, n, text);
    case Str(x) => StringValue(s, i, x, text);
    case Null => NullValue(s, i, text);
    case Bool(b) => BoolValue(s, i, b, text);
  }

  lemma NullValue(s: string, i: nat, text: string)
    requires text == "null" && Stands(s, i, text)
    ensures ValueAt(s, i) == Some((Null, i + |text|))
  {
    Peek(s, i, "null");
  }

  lemma BoolValue(s: string, i: nat, b: bool, text: string)
    requires text == (if b then "true" else "false") && Stands(s, i, text)
    ensures ValueAt(s, i) == Some((Bool(b), i + |text|))
  {
    Peek(s, i, if b then "true" else "false");
  }

  lemma NumberValue(s: string, i: nat, n: int, text: string)
    requires text == Decimal(n) && Stands(s, i, text) && AfterValue(s, i + |text|)
    ensures ValueAt(s, i) == Some((Num(n), i + |text|))
  {
    NumberReadsBack(s, i, n);
  }

  lemma StringValue(s: string, i: nat, t: string, text: string)
    requires text == Quoted(t) && Stands(s, i, text)
    ensures ValueAt(s, i) == Some((Str(t), i + |text|))
  {
    StringReadsBack(s, i, t);
  }

  predicate AllScalar(items: seq<Doc>) { forall k :: 0 <= k < |items| ==> Scalar(items[k]) }

  /** The texts of an array's items, each of which reads back where it stands. */
  lemma {:induction false} ArrayTexts(items: seq<Doc>, depth: nat, s: string, ends: Reads) returns (texts: seq<string>)
    requires FloatFree(Arr(items)) && items != [] && ends == ReadsItems(s, items)
    ensures |texts| == |items| && ReadsTexts(s, ends, texts) && AllSolid(texts)
    ensures AllScalar(items) ==> Printed(Arr(items), depth) == Line(texts)
    ensures !AllScalar(items) ==> Printed(Arr(items), depth) == Block("[", texts, depth, "]")
    decreases items, 2
  {
    texts := ItemTexts(items, depth + 1);
    ItemsRead(items, depth + 1, s, ends);
  }

  lemma {:induction false} ArrayValue(items: seq<Doc>, depth: nat, s: string, i: nat, text: string)
    requires FloatFree(Arr(items)) && text == Printed(Arr(items), depth) && Stands(s, i, text)
    ensures ValueAt(s, i) == Some((Arr(items), i + |text|))
    decreases items, 4
  {
    if items == [] {
      EmptyArray(s, i, ItemTexts(items, depth + 1));
    } else if AllScalar(items) {
      LineArray(items, depth, s, i, text);
    } else {
      BlockArray(items, depth, s, i, text);
    }
  }

  lemma {:induction false} LineArray(items: seq<Doc>, depth: nat, s: string, i: nat, text: string)
    requires FloatFree(Arr(items)) && items != [] && AllScalar(items)
    requires text == Printed(Arr(items), depth) && Stands(s, i, text)
    ensures ValueAt(s, i) == Some((Arr(items), i + |text|))
    decreases items, 3
  {
    var texts := ArrayTexts(items, depth, s, ReadsItems(s, items));
    LineValue(s, i, items, texts, text);
  }

  lemma {:induction false} BlockArray(items: seq<Doc>, depth: nat, s: string, i: nat, text: string)
    requires FloatFree(Arr(items)) && items != [] && !AllScalar(items)
    requires text == Printed(Arr(items), depth) && Stands(s, i, text)
    ensures ValueAt(s, i) == Some((Arr(items), i + |text|))
    decreases items, 3
  {
    var texts := ArrayTexts(items, depth, s, ReadsItems(s, items));
    BlockValue(s, i, items, texts, depth, text);
  }

  lemma LineValue(s: string, i: nat, items: seq<Doc>, texts: seq<string>, text: string)
    requires items != [] && |texts| == |items| && ReadsTexts(s, ReadsItems(s, items), texts)
    requires AllSolid(texts) && text == Line(texts) && Stands(s, i, text)
    ensures ValueAt(s, i) == Some((Arr(items), i + |text|))
  {
    LineStands(s, i, ReadsItems(s, items), texts);
    ArrayReadsBack(s, i, items, i + |text|);
  }

  lemma BlockValue(s: string, i: nat, items: seq<Doc>, texts: seq<string>, depth: nat, text: string)
    requires items != [] && |texts| == |items| && ReadsTexts(s, ReadsItems(s, items), texts)
    requires AllSolid(texts) && text == Block("[", texts, depth, "]") && Stands(s, i, text)
    ensures ValueAt(s, i) == Some((Arr(items), i + |text|))
  {
    BlockStands(s, i, ReadsItems(s, items), '[', texts, depth, ']');
    ArrayReadsBack(s, i, items, i + |text|);
  }

  lemma {:induction false} ItemsRead(items: seq<Doc>, depth: nat, s: string, ends: Reads)
    requires FloatFree(Arr(items)) && ends == ReadsItems(s, items)
    ensures ReadsTexts(s, ends, ItemTexts(items, depth)) && AllSolid(ItemTexts(items, depth))
    decreases items, 1
  {
    var texts := ItemTexts(items, depth);
    forall k: nat, j: nat | k < |texts| && Stands(s, j, texts[k]) && AfterValue(s, j + |texts[k]|)
      ensures ends(k, j, j + |texts[k]|)
    {
      ItemInPlace(items, k, depth, s, j, ends, texts[k]);
    }
    ItemsSolid(items, depth);
  }

  lemma {:induction false} ItemInPlace(items: seq<Doc>, k: nat, depth: nat, s: string, j: nat, ends: Reads,
                                       text: string)
    requires FloatFree(Arr(items)) && ends == ReadsItems(s, items)
    requires k < |items| && text == Printed(items[k], depth)
    requires Stands(s, j, text) && AfterValue(s, j + |text|)
    ensures ends(k, j, j + |text|)
    decreases items, 0
  {
    ValueReadsBack(items[k], depth, s, j, text);
    ItemEnds(s, items, ends, k, j, j + |text|);
  }

  lemma ItemsSolid(items: seq<Doc>, depth: nat)
    requires FloatFree(Arr(items))
    ensures AllSolid(ItemTexts(items, depth))
  {
    var texts := ItemTexts(items, depth);
    forall k | 0 <= k < |texts| ensures SolidAt(texts, k) {
      StartsSolid(items[k], depth);
    }
  }

  lemma ItemEnds(s: string, items: seq<Doc>, ends: Reads, k: nat, j: nat, end: nat)
    requires ends == ReadsItems(s, items) && k < |items| && j <= |s| && ValueAt(s, j) == Some((items[k], end))
    ensures ends(k, j, end)
  {
  }

  lemma EmptyArray(s: string, i: nat, texts: seq<string>)
    requires texts == [] && Stands(s, i, Line(texts))
    ensures ValueAt(s, i) == Some((Arr([]), i + |Line(texts)|))
  {
    assert Line(texts) == "[]";
    Peek(s, i, "[]");
  }

  /** The texts of an object's fields, each of which reads back where it stands. */
  lemma {:induction false} ObjectTexts(fields: seq<Field>, depth: nat, s: string, ends: Reads)
    returns (texts: seq<string>)
    requires FloatFree(Obj(fields)) && fields != [] && ends == ReadsFields(s, fields)
    ensures |texts| == |fields| && ReadsTexts(s, ends, texts) && AllSolid(texts)
    ensures Printed(Obj(fields), depth) == Block("{", texts, depth, "}")
    decreases fields, 2
  {
    texts := FieldTexts(fields, depth + 1);
    FieldsRead(fields, depth + 1, s, ends);
  }

  lemma {:induction false} ObjectValue(fields: seq<Field>, depth: nat, s: string, i: nat, text: string)
    requires FloatFree(Obj(fields)) && text == Printed(Obj(fields), depth) && Stands(s, i, text)
    ensures ValueAt(s, i) == Some((Obj(fields), i + |text|))
    decreases fields, 4
  {
    if fields == [] {
      EmptyObject(s, i);
    } else {
      FullObject(fields, depth, s, i, text);
    }
  }

  lemma {:induction false} FullObject(fields: seq<Field>, depth: nat, s: string, i: nat, text: string)
    requires FloatFree(Obj(fields)) && fields != [] && text == Printed(Obj(fields), depth) && Stands(s, i, text)
    ensures ValueAt(s, i) == Some((Obj(fields), i + |text|))
    decreases fields, 3
  {
    var texts := ObjectTexts(fields, depth, s, ReadsFields(s, fields));
    ObjectOf(s, i, fields, texts, depth, text);
  }

  lemma EmptyObject(s: string, i: nat)
    requires Stands(s, i, "{}")
    ensures ValueAt(s, i) == Some((Obj([]), i + 2))
  {
    Peek(s, i, "{}");
  }

  lemma ObjectOf(s: string, i: nat, fields: seq<Field>, texts: seq<string>, depth: nat, text: string)
    requires fields != [] && |texts| == |fields| && ReadsTexts(s, ReadsFields(s, fields), texts)
    requires AllSolid(texts) && text == Block("{", texts, depth, "}") && Stands(s, i, text)
    ensures ValueAt(s, i) == Some((Obj(fields), i + |text|))
  {
    BlockStands(s, i, ReadsFields(s, fields), '{', texts, depth, '}');
    ObjectReadsBack(s, i, fields, i + |text|);
  }

  lemma {:induction false} FieldsRead(fields: seq<Field>, depth: nat, s: string, ends: Reads)
    requires FloatFree(Obj(fields)) && ends == ReadsFields(s, fields)
    ensures ReadsTexts(s, ends, FieldTexts(fields, depth)) && AllSolid(FieldTexts(fields, depth))
    decreases fields, 1
  {
    var texts := FieldTexts(fields, depth);
    forall k: nat, j: nat | k < |texts| && Stands(s, j, texts[k]) && AfterValue(s, j + |texts[k]|)
      ensures ends(k, j, j + |texts[k]|)
    {
      FieldInPlace(fields, k, depth, s, j, ends, texts[k]);
    }
    FieldsSolid(fields, depth);
  }

  lemma {:induction false} FieldInPlace(fields: seq<Field>, k: nat, depth: nat, s: string, j: nat, ends: Reads,
                                        text: string)
    requires FloatFree(Obj(fields)) && ends == ReadsFields(s, fields)
    requires k < |fields| && text == FieldText(fields[k].name, Printed(fields[k].value, depth))
    requires Stands(s, j, text) && AfterValue(s, j + |text|)
    ensures ends(k, j, j + |text|)
    decreases fields, 0
  {
    FieldRead(fields[k], depth, s, j, text);
    FieldEnds(s, fields, ends, k, j, j + |text|);
  }

  lemma FieldsSolid(fields: seq<Field>, depth: nat)
    ensures AllSolid(FieldTexts(fields, depth))
  {
    var texts := FieldTexts(fields, depth);
    forall k | 0 <= k < |texts| ensures SolidAt(texts, k) {
      assert texts[k][0] == '\"';
    }
  }

  lemma FieldEnds(s: string, fields: seq<Field>, ends: Reads, k: nat, j: nat, end: nat)
    requires ends == ReadsFields(s, fields) && k < |fields| && j <= |s| && FieldAt(s, j) == Some((fields[k], end))
    ensures ends(k, j, end)
  {
  }

  lemma {:induction false} FieldRead(f: Field, depth: nat, s: string, j: nat, text: string)
    requires FloatFree(f.value) && text == FieldText(f.name, Printed(f.value, depth))
    requires Stands(s, j, text) && AfterValue(s, j + |text|)
    ensures j <= |s| && FieldAt(s, j) == Some((f, j + |text|))
    decreases f
  {
    StartsSolid(f.value, depth);
    var start := FieldStands(s, j, f.name, Printed(f.value, depth));
    ValueReadsBack(f.value, depth, s, start, Printed(f.value, depth));
    FieldReadsBack(s, j, f, Printed(f.value, depth), start);
  }

  /** Where a field's text puts its value. */
  lemma FieldStands(s: string, i: nat, name: string, value: string) returns (start: nat)
    requires Stands(s, i, FieldText(name, value))
    ensures start == i + |Quoted(name)| + 2 && Stands(s, start, value)
    ensures i + |FieldText(name, value)| == start + |value|
  {
    start := i + |Quoted(name)| + 2;
    StandsParts(s, i, Quoted(name), ": " + value);
    StandsParts(s, i + |Quoted(name)|, ": ", value);
  }

  /** The parser undoes the printer, with or without a final newline. */
  lemma ParsePrinted(d: Doc)
    requires FloatFree(d)
    ensures Parse(Printed(d, 0)) == Some(d) && Parse(Printed(d, 0) + "\n") == Some(d)
  {
    ParsesBefore(d, "");
    ParsesBefore(d, "\n");
    assert Printed(d, 0) + "" == Printed(d, 0);
  }

  lemma ParsesBefore(d: Doc, after: string)
    requires FloatFree(d) && (after == "" || after == "\n")
    ensures Parse(Printed(d, 0) + after) == Some(d)
  {
    var t := Printed(d, 0);
    var s := t + after;
    StandsWhole(t, after);
    StartsSolid(d, 0);
    Peek(s, 0, t);
    ValueReadsBack(d, 0, s, 0, t);
    assert SkipWs(s, 0) == 0;
    SkipsBlank(s, |t|, after);
  }

  lemma StandsWhole(t: string, after: string)
    ensures Stands(t + after, 0, t) && Stands(t + after, |t|, after)
  {
    forall k | 0 <= k < |t| ensures SameAt(t + after, 0, t, k) {
    }
    forall k | 0 <= k < |after| ensures SameAt(t + after, |t|, after, k) {
    }
  }
}
