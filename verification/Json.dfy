/**
 JSON documents without floats, as they are printed, and a parser for them by RFC 8259, sections 2
 to 7. A number with a fraction or an exponent is not part of the parser: no document prints one.
 */
module Json {
  import opened Wrappers

  /** A document: an object's fields in the order they were put in. */
  datatype Doc =
    | Null
    | Bool(b: bool)
    | Num(n: int)
    | Str(s: string)
    | Float(x: real)
    | Arr(items: seq<Doc>)
    | Obj(fields: seq<Field>)

  datatype Field = Field(name: string, value: Doc)

  predicate Scalar(d: Doc) { !d.Arr? && !d.Obj? }

  // ----- printing ------------------------------------------------------------------------------

  const HEX := "0123456789abcdef"

  /** Quote, backslash and control characters escaped; everything else as it is. */
  function Escape(c: char): (r: string)
    ensures 1 <= |r| <= 6
  {
    match c
    case '\"' => "\\\""
    case '\\' => "\\\\"
    case '\n' => "\\n"
    case '\r' => "\\r"
    case '\t' => "\\t"
    case _ =>
      if c == 8 as char then "\\b"
      else if c == 12 as char then "\\f"
      else if c < ' ' then "\\u00" + [HEX[c as int / 16], HEX[c as int % 16]]
      else [c]
  }

  /** Escapes are the shortest there are: two characters where JSON has one for it, six for other control characters,
      and none for the rest; hexadecimal digits are small. */
  lemma EscapesAreShortest(c: char)
    ensures |Escape(c)|
            == if c in "\"\\\n\r\t" || c as int == 8 || c as int == 12 then 2 else if c as int < 32 then 6 else 1
    ensures |Escape(c)| == 6 ==> Escape(c)[..4] == "\\u00" && forall k :: 4 <= k < 6 ==> !('A' <= Escape(c)[k] <= 'F')
    ensures |Escape(c)| == 1 ==> Escape(c) == [c]
  {
  }

  function Escaped(escape: char -> string, s: string): string {
    if s == [] then [] else escape(s[0]) + Escaped(escape, s[1..])
  }

  function Quoted(s: string): string { "\"" + Escaped(Escape, s) + "\"" }

  function Digits(n: nat): (r: string)
    ensures r != []
  {
    if n < 10 then [HEX[n]] else Digits(n / 10) + [HEX[n % 10]]
  }

  function Decimal(n: int): string {
    if n < 0 then "-" + Digits(-n) else Digits(n)
  }

  function Spaces(n: nat): string { seq(n, _ => ' ') }

  /** The texts from k on, each after `gap`. */
  function Tail(texts: seq<string>, k: nat, gap: string): string
    requires k <= |texts|
    decreases |texts| - k
  {
    if k == |texts| then "" else gap + (texts[k] + Tail(texts, k + 1, gap))
  }

  function Listed(open: string, texts: seq<string>, gap: string, close: string): string
    requires texts != []
  {
    open + ((texts[0] + Tail(texts, 1, gap)) + close)
  }

  /** The text of a document that stands `depth` levels in; fields keep the order they are in. */
  function Printed(d: Doc, depth: nat): string
    decreases d
  {
    match d
    case Null => "null"
    case Bool(b) => if b then "true" else "false"
    case Num(n) => Decimal(n)
    case Str(s) => Quoted(s)
    case Float(_) => ""
    case Arr(items) =>
      var texts := ItemTexts(items, depth + 1);
      if forall i :: 0 <= i < |items| ==> Scalar(items[i]) then Line(texts) else Block("[", texts, depth, "]")
    case Obj(fields) =>
      if fields == [] then "{}" else Block("{", FieldTexts(fields, depth + 1), depth, "}")
  }

  function ItemTexts(items: seq<Doc>, depth: nat): seq<string>
    decreases items
  {
    seq(|items|, i requires 0 <= i < |items| => Printed(items[i], depth))
  }

  function FieldText(name: string, value: string): string { Quoted(name) + (": " + value) }

  function FieldTexts(fields: seq<Field>, depth: nat): seq<string>
    decreases fields
  {
    seq(|fields|, i requires 0 <= i < |fields| => FieldText(fields[i].name, Printed(fields[i].value, depth)))
  }

  function Line(texts: seq<string>): string {
    if texts == [] then "[]" else Listed("[", texts, ", ", "]")
  }

  /** A text a line, one level deeper than the brackets around them. */
  function Block(open: string, texts: seq<string>, depth: nat, close: string): string
    requires texts != []
  {
    var lead := "\n" + Spaces(depth + 1);
    Listed(open + lead, texts, "," + lead, "\n" + Spaces(depth) + close)
  }

  lemma {:induction false} TailGrows(texts: seq<string>, k: nat, gap: string, text: string)
    requires k <= |texts|
    ensures Tail(texts + [text], k, gap) == Tail(texts, k, gap) + (gap + text)
    decreases |texts| - k
  {
    if k < |texts| {
      TailGrows(texts, k + 1, gap, text);
      assert (texts + [text])[k] == texts[k];
      assert gap + (texts[k] + (Tail(texts, k + 1, gap) + (gap + text)))
          == (gap + (texts[k] + Tail(texts, k + 1, gap))) + (gap + text);
    } else {
      assert Tail(texts + [text], k + 1, gap) == "";
      assert gap + (text + "") == "" + (gap + text);
    }
  }

  /** A list is its opening, its texts with a gap between each two, and its closing. */
  lemma ListGrows(open: string, texts: seq<string>, gap: string, close: string, text: string)
    requires texts != []
    ensures Listed(open, [text], gap, close) == open + text + close
    ensures Listed(open, texts + [text], gap, close) == Listed(open, texts, gap, "") + gap + text + close
  {
    TailGrows(texts, 1, gap, text);
    assert Tail([text], 1, gap) == "" && text + "" == text;
    var body := texts[0] + Tail(texts, 1, gap);
    assert Listed(open, texts, gap, "") == open + (body + "");
    assert texts[0] + (Tail(texts, 1, gap) + (gap + text)) == body + (gap + text);
    assert open + ((body + (gap + text)) + close) == (open + (body + "")) + gap + text + close;
  }

  predicate Blank(indent: string, n: nat) { |indent| == n && forall k :: 0 <= k < n ==> indent[k] == ' ' }

  /** A block has a line for each text, one space further in than its brackets, with commas at the ends of all but
      the last. */
  lemma BlockGrows(open: string, texts: seq<string>, depth: nat, close: string, text: string, indent: string,
                   outdent: string)
    requires texts != [] && Blank(indent, depth + 1) && Blank(outdent, depth)
    ensures Block(open, [text], depth, close) == (open + ("\n" + indent)) + text + ("\n" + outdent + close)
    ensures Block(open, texts + [text], depth, close)
            == Listed(open + ("\n" + indent), texts, "," + ("\n" + indent), "")
               + ("," + ("\n" + indent)) + text + ("\n" + outdent + close)
  {
    assert Spaces(depth + 1) == indent && Spaces(depth) == outdent;
    ListGrows(open + ("\n" + indent), texts, "," + ("\n" + indent), "\n" + outdent + close, text);
  }

  /** A line has its texts between brackets, with a comma and a space between each two. */
  lemma LineGrows(texts: seq<string>, text: string)
    requires texts != []
    ensures Line([text]) == "[" + text + "]"
    ensures Line(texts + [text]) == Listed("[", texts, ", ", "") + ", " + text + "]"
  {
    ListGrows("[", texts, ", ", "]", text);
  }

  /** Arrays stay on a line while nothing in them nests; objects never do, but for the empty one. */
  lemma WhatIsOnALine(items: seq<Doc>, fields: seq<Field>, depth: nat)
    ensures (forall d :: d in items ==> d.Null? || d.Bool? || d.Num? || d.Str? || d.Float?) ==>
              Printed(Arr(items), depth) == Line(ItemTexts(items, depth + 1))
    ensures (exists d :: d in items && (d.Arr? || d.Obj?)) ==>
              Printed(Arr(items), depth) == Block("[", ItemTexts(items, depth + 1), depth, "]")
    ensures fields == [] ==> Printed(Obj(fields), depth) == "{}"
    ensures fields != [] ==> Printed(Obj(fields), depth) == Block("{", FieldTexts(fields, depth + 1), depth, "}")
  {
    forall i | 0 <= i < |items| ensures items[i] in items {
    }
  }

  // ----- parsing -------------------------------------------------------------------------------

  predicate IsWs(c: char) { c == ' ' || c == '\t' || c == '\n' || c == '\r' }

  /** Insignificant whitespace. */
  function SkipWs(s: string, i: nat): (j: nat)
    requires i <= |s|
    ensures i <= j <= |s|
    decreases |s| - i
  {
    if i < |s| && IsWs(s[i]) then SkipWs(s, i + 1) else i
  }

  function HexDigit(c: char): Option<nat> {
    if '0' <= c <= '9' then Some(c as int - '0' as int)
    else if 'a' <= c <= 'f' then Some(c as int - 'a' as int + 10)
    else if 'A' <= c <= 'F' then Some(c as int - 'A' as int + 10)
    else None
  }

  /** Four hexadecimal digits. */
  function Hex4(s: string, i: nat): (r: Option<nat>)
    ensures r.Some? ==> i + 4 <= |s|
  {
    if i + 4 > |s| then None
    else
      match (HexDigit(s[i]), HexDigit(s[i + 1]), HexDigit(s[i + 2]), HexDigit(s[i + 3]))
      case (Some(a), Some(b), Some(c), Some(d)) => Some(((a * 16 + b) * 16 + c) * 16 + d)
      case _ => None
  }

  /** A character by its number; the surrogates are none. */
  function CharOf(n: int): Option<char> {
    if 0 <= n < 0xD800 || 0xE000 <= n < 0x11_0000 then Some(n as char) else None
  }

  /** An escape after its backslash, which is at i - 1: one of eight letters, or a number, or a pair of them. */
  function Unescape(s: string, i: nat): (r: Option<(char, nat)>)
    ensures r.Some? ==> i < r.value.1 <= |s|
  {
    if i >= |s| then None
    else match s[i]
      case '\"' => Some(('\"', i + 1))
      case '\\' => Some(('\\', i + 1))
      case '/' => Some(('/', i + 1))
      case 'b' => Some((8 as char, i + 1))
      case 'f' => Some((12 as char, i + 1))
      case 'n' => Some(('\n', i + 1))
      case 'r' => Some(('\r', i + 1))
      case 't' => Some(('\t', i + 1))
      case 'u' =>
        var first := Hex4(s, i + 1);
        if first.None? then None
        else if 0xD800 <= first.value < 0xDC00 then LowHalf(s, i + 5, first.value)
        else
          var c := CharOf(first.value);
          if c.None? then None else Some((c.value, i + 5))
      case _ => None
  }

  /** The second number of a pair, at i. */
  function LowHalf(s: string, i: nat, high: nat): (r: Option<(char, nat)>)
    ensures r.Some? ==> i < r.value.1 <= |s|
  {
    if i + 1 < |s| && s[i] == '\\' && s[i + 1] == 'u' then
      var low := Hex4(s, i + 2);
      if low.None? || low.value < 0xDC00 || low.value >= 0xE000 then None
      else
        var c := CharOf(0x1_0000 + (high - 0xD800) * 0x400 + (low.value - 0xDC00));
        if c.None? then None else Some((c.value, i + 6))
    else None
  }

  /** One character of a string. */
  function CharAt(s: string, i: nat): (r: Option<(char, nat)>)
    ensures r.Some? ==> i < r.value.1 <= |s|
  {
    if i >= |s| || s[i] == '\"' || s[i] < ' ' then None
    else if s[i] == '\\' then Unescape(s, i + 1)
    else Some((s[i], i + 1))
  }

  /** A string from after its opening quote. */
  function Chars(s: string, i: nat): (r: Option<(string, nat)>)
    requires i <= |s|
    ensures r.Some? ==> i < r.value.1 <= |s|
    decreases |s| - i
  {
    if i == |s| then None
    else if s[i] == '\"' then Some(([], i + 1))
    else
      var c := CharAt(s, i);
      if c.None? then None
      else
        var rest := Chars(s, c.value.1);
        if rest.None? then None else Some(([c.value.0] + rest.value.0, rest.value.1))
  }

  function StringAt(s: string, i: nat): (r: Option<(string, nat)>)
    ensures r.Some? ==> i < r.value.1 <= |s|
  {
    if i < |s| && s[i] == '\"' then Chars(s, i + 1) else None
  }

  predicate IsDigit(c: char) { '0' <= c <= '9' }

  function DigitsEnd(s: string, i: nat): (j: nat)
    requires i <= |s|
    ensures i <= j <= |s|
    decreases |s| - i
  {
    if i < |s| && IsDigit(s[i]) then DigitsEnd(s, i + 1) else i
  }

  function DigitOf(c: char): nat { if IsDigit(c) then c as int - '0' as int else 0 }

  function ValueOf(digits: string): nat {
    if digits == [] then 0 else ValueOf(digits[..|digits| - 1]) * 10 + DigitOf(digits[|digits| - 1])
  }

  /** Digits without a leading zero, and no fraction or exponent after them. */
  function NatAt(s: string, i: nat): (r: Option<(nat, nat)>)
    requires i <= |s|
    ensures r.Some? ==> i < r.value.1 <= |s|
  {
    var j := DigitsEnd(s, i);
    if j == i || (s[i] == '0' && j > i + 1) then None
    else if j < |s| && (s[j] == '.' || s[j] == 'e' || s[j] == 'E') then None
    else Some((ValueOf(s[i..j]), j))
  }

  function NumberAt(s: string, i: nat): (r: Option<(Doc, nat)>)
    requires i <= |s|
    ensures r.Some? ==> i < r.value.1 <= |s|
  {
    if i < |s| && s[i] == '-' then
      var n := NatAt(s, i + 1);
      if n.None? then None else Some((Num(-(n.value.0 as int)), n.value.1))
    else
      var n := NatAt(s, i);
      if n.None? then None else Some((Num(n.value.0), n.value.1))
  }

  /** `t` stands in `s` at i. */
  predicate Stands(s: string, i: nat, t: string) {
    i + |t| <= |s| && forall k :: 0 <= k < |t| ==> SameAt(s, i, t, k)
  }

  predicate SameAt(s: string, i: nat, t: string, k: nat) {
    k < |t| && i + k < |s| && s[i + k] == t[k]
  }

  function WordAt(s: string, i: nat, word: string, d: Doc): (r: Option<(Doc, nat)>)
    requires word != []
    ensures r.Some? ==> i < r.value.1 <= |s|
  {
    if Stands(s, i, word) then Some((d, i + |word|)) else None
  }

  /** A value that starts at i. */
  function ValueAt(s: string, i: nat): (r: Option<(Doc, nat)>)
    requires i <= |s|
    ensures r.Some? ==> i < r.value.1 <= |s|
    decreases |s| - i, 0
  {
    if i == |s| then None
    else match s[i]
      case '\"' =>
        var t := StringAt(s, i);
        if t.None? then None else Some((Str(t.value.0), t.value.1))
      case '[' =>
        var j := SkipWs(s, i + 1);
        if j < |s| && s[j] == ']' then Some((Arr([]), j + 1))
        else
          var items := ItemsAt(s, j);
          if items.None? then None else Some((Arr(items.value.0), items.value.1))
      case '{' =>
        var j := SkipWs(s, i + 1);
        if j < |s| && s[j] == '}' then Some((Obj([]), j + 1))
        else
          var fields := FieldsAt(s, j);
          if fields.None? then None else Some((Obj(fields.value.0), fields.value.1))
      case 'n' => WordAt(s, i, "null", Null)
      case 't' => WordAt(s, i, "true", Bool(true))
      case 'f' => WordAt(s, i, "false", Bool(false))
      case _ => NumberAt(s, i)
  }

  /** The items of an array from the one at i on, through its closing bracket. */
  function ItemsAt(s: string, i: nat): (r: Option<(seq<Doc>, nat)>)
    requires i <= |s|
    ensures r.Some? ==> i < r.value.1 <= |s|
    decreases |s| - i, 1
  {
    var v := ValueAt(s, i);
    if v.None? then None
    else
      var j := SkipWs(s, v.value.1);
      if j == |s| then None
      else if s[j] == ']' then Some(([v.value.0], j + 1))
      else if s[j] != ',' then None
      else
        var rest := ItemsAt(s, SkipWs(s, j + 1));
        if rest.None? then None else Some(([v.value.0] + rest.value.0, rest.value.1))
  }

  /** One name and its value, from the quote at i. */
  function FieldAt(s: string, i: nat): (r: Option<(Field, nat)>)
    requires i <= |s|
    ensures r.Some? ==> i < r.value.1 <= |s|
    decreases |s| - i, 1
  {
    var name := StringAt(s, i);
    if name.None? then None
    else
      var j := SkipWs(s, name.value.1);
      if j == |s| || s[j] != ':' then None
      else
        var v := ValueAt(s, SkipWs(s, j + 1));
        if v.None? then None else Some((Field(name.value.0, v.value.0), v.value.1))
  }

  function FieldsAt(s: string, i: nat): (r: Option<(seq<Field>, nat)>)
    requires i <= |s|
    ensures r.Some? ==> i < r.value.1 <= |s|
    decreases |s| - i, 2
  {
    var field := FieldAt(s, i);
    if field.None? then None
    else
      var j := SkipWs(s, field.value.1);
      if j == |s| then None
      else if s[j] == '}' then Some(([field.value.0], j + 1))
      else if s[j] != ',' then None
      else
        var rest := FieldsAt(s, SkipWs(s, j + 1));
        if rest.None? then None else Some(([field.value.0] + rest.value.0, rest.value.1))
  }

  /** The one document a text is, with whitespace around it. */
  function Parse(s: string): Option<Doc> {
    var v := ValueAt(s, SkipWs(s, 0));
    if v.Some? && SkipWs(s, v.value.1) == |s| then Some(v.value.0) else None
  }
}
