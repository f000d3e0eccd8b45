/** The header of the NPY format, version 1.0 (NEP 1), written and read back: include/cnpy/cnpy.h and
    include/cnpy/cnpy.cpp. A char is one byte. */
module Npy {

  // ----- decimal numbers

  function Digit(d: nat): char
    requires d < 10
  {
    "0123456789"[d]
  }

  predicate IsDigit(c: char) {
    '0' <= c <= '9'
  }

  /** tostring of an unsigned number. */
  function Decimal(n: nat): (s: string)
    ensures s != "" && forall i | 0 <= i < |s| :: IsDigit(s[i])
  {
    if n < 10 then [Digit(n)] else Decimal(n / 10) + [Digit(n % 10)]
  }

  predicate IsSpace(c: char) {
    c == ' ' || '\t' <= c <= '\r'
  }

  /** The number that the digits at the front of s stand for, after those already read. */
  function ReadDigits(s: string, value: nat): nat {
    if s != "" && IsDigit(s[0]) then ReadDigits(s[1..], 10 * value + (s[0] as int - '0' as int)) else value
  }

  /** atoi, without the limit of int. */
  function Atoi(s: string): int {
    if s != "" && IsSpace(s[0]) then Atoi(s[1..])
    else if s != "" && s[0] == '-' then 0 - ReadDigits(s[1..], 0)
    else if s != "" && s[0] == '+' then ReadDigits(s[1..], 0)
    else ReadDigits(s, 0)
  }

  lemma {:induction false} ReadOneMore(s: string, c: char, value: nat)
    requires IsDigit(c) && forall i | 0 <= i < |s| :: IsDigit(s[i])
    ensures ReadDigits(s + [c], value) == 10 * ReadDigits(s, value) + (c as int - '0' as int)
  {
    if s == "" {
      assert s + [c] == [c];
      assert ReadDigits([c][1..], 10 * value + (c as int - '0' as int)) == 10 * value + (c as int - '0' as int);
    } else {
      assert (s + [c])[1..] == s[1..] + [c];
      ReadOneMore(s[1..], c, 10 * value + (s[0] as int - '0' as int));
    }
  }

  lemma DigitValue(d: nat)
    requires d < 10
    ensures IsDigit(Digit(d)) && Digit(d) as int - '0' as int == d
  {
  }

  lemma {:induction false} ReadDecimal(n: nat)
    ensures ReadDigits(Decimal(n), 0) == n
  {
    hide Digit;
    DigitValue(n % 10);
    if n < 10 {
      assert ReadDigits([Digit(n)][1..], n) == n;
    } else {
      ReadDecimal(n / 10);
      ReadOneMore(Decimal(n / 10), Digit(n % 10), 0);
    }
  }

  /** atoi undoes tostring, with or without a space in front. */
  lemma AtoiDecimal(n: nat)
    ensures Atoi(Decimal(n)) == n && Atoi(" " + Decimal(n)) == n
  {
    ReadDecimal(n);
    assert (" " + Decimal(n))[1..] == Decimal(n);
  }

  // ----- searching strings

  /** std::string::find, -1 for npos. */
  function Find(s: string, pattern: string): (k: int)
    ensures -1 <= k && (k >= 0 ==> k + |pattern| <= |s|)
  {
    if |s| < |pattern| then -1
    else if s[..|pattern|] == pattern then 0
    else if s == "" then -1
    else
      var k := Find(s[1..], pattern);
      if k < 0 then -1 else k + 1
  }

  /** A character that does not occur in a is first found right behind it. */
  lemma {:induction false} FindChar(a: string, c: char, b: string)
    requires c !in a
    ensures Find(a + [c] + b, [c]) == |a|
  {
    var s := a + [c] + b;
    if a == "" {
      assert s[..1] == [c];
    } else {
      assert s[0] == a[0] && s[..1] == [a[0]] && a[0] in a;
      assert s[1..] == a[1..] + [c] + b;
      FindChar(a[1..], c, b);
    }
  }

  lemma {:induction false} FindNoChar(a: string, c: char)
    requires c !in a
    ensures Find(a, [c]) == -1
  {
    if a != "" {
      assert a[..1] == [a[0]] && a[0] in a;
      FindNoChar(a[1..], c);
    }
  }

  /** A pattern that has some character not in a, and not the last character of a, is not found before b. */
  lemma {:induction false} FindBehind(a: string, b: string, pattern: string, k: nat)
    requires k < |pattern| && pattern[k] !in a && (a != "" ==> a[|a| - 1] !in pattern)
    ensures Find(a + b, pattern) == if Find(b, pattern) < 0 then -1 else |a| + Find(b, pattern)
  {
    if a == "" {
      assert a + b == b;
    } else {
      assert (a + b)[1..] == a[1..] + b;
      FindBehind(a[1..], b, pattern, k);
      if |a + b| >= |pattern| {
        var x := if k < |a| then k else |a| - 1;
        assert (a + b)[..|pattern|][x] == a[x] != pattern[x];
      }
    }
  }

  /** std::string::substr, where the length may be npos. */
  function Substr(s: string, pos: nat, n: int): string
    requires pos <= |s|
  {
    if n < 0 || pos + n > |s| then s[pos..] else s[pos..pos + n]
  }

  function Count(s: string, c: char): nat {
    if s == "" then 0 else (if s[0] == c then 1 else 0) + Count(s[1..], c)
  }

  // ----- writing

  /** What createNpyHeader is told by the machine and the element type: BigEndianTest, mapType and sizeof. */
  datatype ElementType = ElementType(endian: char, kind: char, size: nat)

  predicate Known(t: ElementType) {
    t.endian in "<>" && t.kind in "fiubc?"
  }

  function Dims(shape: seq<nat>): string
    requires shape != []
  {
    if |shape| == 1 then Decimal(shape[0]) else Decimal(shape[0]) + ", " + Dims(shape[1..])
  }

  function ShapeText(shape: seq<nat>): string
    requires shape != []
  {
    Dims(shape) + if |shape| == 1 then "," else ""
  }

  function Front(t: ElementType): string {
    "{'descr': '" + [t.endian] + [t.kind] + Decimal(t.size) + "', 'fortran_order': False, 'shape': ("
  }

  function Dict(t: ElementType, shape: seq<nat>): string
    requires shape != []
  {
    Front(t) + ShapeText(shape) + "), }"
  }

  function Blanks(n: nat): (s: string)
    ensures |s| == n
  {
    seq(n, _ => ' ')
  }

  /** The dictionary padded so that with the 10 bytes in front the length is a multiple of 16, ending in a newline. */
  function Padded(dict: string): (s: string) {
    dict + Blanks(15 - (10 + |dict|) % 16) + "\n"
  }

  /** The 10 bytes in front: magic string, version, and the dictionary's length in two bytes, low byte first. */
  function Preamble(length: nat): (s: string)
    ensures |s| == 10
  {
    [0x93 as char] + "NUMPY" + [1 as char, 0 as char, (length % 256) as char, (length / 256 % 256) as char]
  }

  function Header(t: ElementType, shape: seq<nat>): string
    requires shape != []
  {
    Preamble(|Padded(Dict(t, shape))|) + Padded(Dict(t, shape))
  }

  /** The length of a header is a multiple of 16, and its two length bytes tell it whenever they can. */
  lemma HeaderLength(t: ElementType, shape: seq<nat>)
    requires shape != []
    ensures var h := Header(t, shape);
      && |h| % 16 == 0 && 10 + |Dict(t, shape)| < |h| <= 10 + |Dict(t, shape)| + 16
      && (|h| - 10 < 0x1_0000 ==> h[8] as int + 256 * h[9] as int == |h| - 10)
      && h[|h| - 1] == '\n'
  {
    var n := 10 + |Dict(t, shape)|;
    assert |Padded(Dict(t, shape))| + 10 == n - n % 16 + 16;
  }

  const FORTRAN_ORDER := "'fortran_order': "

  /** What a reader of the format finds in a header: the magic string and version 1.0; and in the dictionary the entry
      descr with byte order, kind and size of the elements, and the entry fortran_order, which is False. (The entry
      shape is what RoundTrip is about.) */
  lemma HeaderEntries(t: ElementType, shape: seq<nat>)
    requires Known(t) && shape != []
    ensures var h := Header(t, shape);
      && |h| >= 10 && h[..8] == [0x93 as char] + "NUMPY" + [1 as char, 0 as char]
      && DescrIs(h[10..], t) && NotFortran(h[10..])
  {
    hide Padded, Preamble, Front, ShapeText, DescrIs, NotFortran;
    var tail := ShapeText(shape) + "), }";
    var rest := tail + Padding(Dict(t, shape));
    PreambleIs(|Padded(Dict(t, shape))|);
    PaddedIs(Dict(t, shape));
    assert Header(t, shape)[10..] == Front(t) + rest;
    FrontDescr(t, rest);
    FrontOrder(t, rest);
  }

  lemma PreambleIs(length: nat)
    ensures Preamble(length)[..8] == [0x93 as char] + "NUMPY" + [1 as char, 0 as char]
  {
  }

  function Padding(dict: string): string {
    Blanks(15 - (10 + |dict|) % 16) + "\n"
  }

  lemma PaddedIs(dict: string)
    ensures Padded(dict) == dict + Padding(dict)
  {
  }

  /** The first entry of the dictionary is descr, a quoted string of byte order, kind and size. */
  predicate DescrIs(dict: string, t: ElementType) {
    && |dict| >= 13 && dict[..11] == "{'descr': '" && dict[11] == t.endian && dict[12] == t.kind
    && var k := Find(dict[13..], "'");
    k >= 0 && Atoi(dict[13..13 + k]) == t.size
  }

  /** The entry fortran_order is False. */
  predicate NotFortran(dict: string) {
    var k := Find(dict, FORTRAN_ORDER);
    k >= 0 && Substr(dict, k + |FORTRAN_ORDER|, 5) == "False"
  }

  /** The dictionary up to the end of the digits, and what comes behind them. */
  function Opening(t: ElementType): (s: string)
    ensures |s| >= 14
  {
    "{'descr': '" + [t.endian] + [t.kind] + Decimal(t.size)
  }

  function AfterSize(rest: string): string {
    MIDDLE + rest
  }

  const MIDDLE := "', " + FORTRAN_ORDER + "False, 'shape': ("

  lemma FrontSplit(t: ElementType, rest: string)
    ensures Front(t) + rest == Opening(t) + AfterSize(rest)
  {
    hide Front, Opening;
    FrontIs(t);
    assert (Opening(t) + MIDDLE) + rest == Opening(t) + (MIDDLE + rest);
  }

  lemma FrontIs(t: ElementType)
    ensures Front(t) == Opening(t) + MIDDLE
  {
    hide Decimal;
    MiddleIs();
  }

  lemma MiddleIs()
    ensures MIDDLE == "', 'fortran_order': False, 'shape': ("
  {
  }

  lemma OpeningParts(t: ElementType)
    ensures var a := Opening(t);
      && a[..11] == "{'descr': '" && a[11] == t.endian && a[12] == t.kind && a[13..] == Decimal(t.size)
      && IsDigit(a[|a| - 1])
    ensures Known(t) ==> '_' !in Opening(t)
  {
    hide Decimal;
    NotInConcat('_', "{'descr': '", [t.endian]);
    NotInConcat('_', "{'descr': '" + [t.endian], [t.kind]);
    NotInConcat('_', "{'descr': '" + [t.endian] + [t.kind], Decimal(t.size));
  }

  lemma NotInConcat(c: char, a: string, b: string)
    ensures c !in a && c !in b ==> c !in a + b
  {
  }

  lemma CharFound(a: string, b: string, c: char)
    requires c !in a && b != "" && b[0] == c
    ensures Find(a + b, [c]) == |a| && (a + b)[..|a|] == a
  {
    hide Find;
    HeadAndTail(a, b);
    FindChar(a, c, b[1..]);
  }

  lemma HeadAndTail(a: string, b: string)
    requires b != ""
    ensures a + b == a + [b[0]] + b[1..] && (a + b)[..|a|] == a
  {
  }

  lemma TailOf(a: string, b: string, k: nat)
    requires k <= |b|
    ensures (a + b)[|a| + k..] == b[k..]
  {
  }

  lemma AfterSizeParts(rest: string)
    ensures var b, k := AfterSize(rest), 3 + |FORTRAN_ORDER|;
      && |b| >= k + 5 && b[0] == '\'' && b[1] == ',' && b[2] == ' '
      && b[3..k] == FORTRAN_ORDER && b[k..][..5] == "False"
  {
  }

  lemma FrontDescr(t: ElementType, rest: string)
    ensures DescrIs(Front(t) + rest, t)
  {
    hide Find, Atoi, Decimal, Opening, Front, AfterSize;
    var s, a, b, digits := Front(t) + rest, Opening(t), AfterSize(rest), Decimal(t.size);
    FrontSplit(t, rest);
    OpeningParts(t);
    AfterSizeParts(rest);
    CharFound(digits, b, '\'');
    assert s[..11] == a[..11] && s[13..] == digits + b;
    assert s[13..13 + |digits|] == s[13..][..|digits|];
    AtoiDecimal(t.size);
  }

  lemma FrontOrder(t: ElementType, rest: string)
    requires Known(t)
    ensures NotFortran(Front(t) + rest)
  {
    hide Find, Decimal, Opening, Front, AfterSize;
    var a, b, k := Opening(t), AfterSize(rest), 3 + |FORTRAN_ORDER|;
    FrontSplit(t, rest);
    OpeningParts(t);
    AfterSizeParts(rest);
    FindBehind(a, b, FORTRAN_ORDER, 8);
    AfterSizeOrder(rest);
    TailOf(a, b, k);
    assert (a + b)[|a| + k..|a| + k + 5] == (a + b)[|a| + k..][..5];
  }

  lemma AfterSizeOrder(rest: string)
    ensures Find(AfterSize(rest), FORTRAN_ORDER) == 3
  {
    hide AfterSize;
    AfterSizeParts(rest);
    OrderFound(AfterSize(rest));
  }

  lemma OrderFound(s: string)
    requires |s| >= 3 + |FORTRAN_ORDER| && s[1] == ',' && s[2] == ' '
    requires s[3..3 + |FORTRAN_ORDER|] == FORTRAN_ORDER
    ensures Find(s, FORTRAN_ORDER) == 3
  {
    assert s[..|FORTRAN_ORDER|][1] == ',' && s[1..][..|FORTRAN_ORDER|][0] == ',' && s[2..][..|FORTRAN_ORDER|][0] == ' ';
    assert s[1..][1..] == s[2..] && s[2..][1..] == s[3..];
    assert s[3..][..|FORTRAN_ORDER|] == FORTRAN_ORDER;
    assert Find(s[3..], FORTRAN_ORDER) == 0;
    assert Find(s[2..], FORTRAN_ORDER) == 1;
    assert Find(s[1..], FORTRAN_ORDER) == 2;
  }

  method CreateNpyHeader(t: ElementType, shape: seq<nat>) returns (header: string)
    requires shape != []
    ensures header == Header(t, shape)
  {
    var dict := DictText(t, shape);
    // blanks fill the last 16 bytes up, and one of them makes way for the newline
    var remainder := 16 - (10 + |dict|) % 16;
    dict := PadDict(dict, remainder);
    LengthBytes(|dict|);
    header := "";
    header := header + [0x93 as char];
    header := header + "NUMPY";
    header := header + [1 as char];
    header := header + [0 as char];
    header := header + [(|dict| % 0x1_0000 % 256) as char, (|dict| % 0x1_0000 / 256) as char];
    assert header == Preamble(|dict|);
    header := header + dict;
  }

  /** The padding, whose last blank becomes the newline. */
  method PadDict(dict: string, remainder: nat) returns (padded: string)
    requires remainder > 0
    ensures padded == dict + Blanks(remainder - 1) + "\n"
  {
    padded := dict + Blanks(remainder);
    padded := padded[|padded| - 1 := '\n'];
  }

  method DictText(t: ElementType, shape: seq<nat>) returns (dict: string)
    requires shape != []
    ensures dict == Dict(t, shape)
  {
    hide Front, Dims;
    dict := FrontText(t);
    dict := AppendDims(dict, shape);
    if |shape| == 1 {
      dict := dict + ",";
    }
    dict := dict + "), }";
  }

  /** The dictionary up to the dimensions. */
  method FrontText(t: ElementType) returns (dict: string)
    ensures dict == Front(t)
  {
    hide Decimal;
    dict := "";
    dict := dict + "{'descr': '";
    dict := dict + [t.endian];
    dict := dict + [t.kind];
    dict := dict + Decimal(t.size);
    dict := dict + "', 'fortran_order': False, 'shape': (";
  }

  method AppendDims(front: string, shape: seq<nat>) returns (dict: string)
    requires shape != []
    ensures dict == front + Dims(shape)
  {
    hide Decimal, Dims;
    dict := front + Decimal(shape[0]);
    DimsSplit(shape, 0);
    assert shape[0..] == shape;
    var i := 1;
    while i < |shape|
      invariant 1 <= i <= |shape| && dict + DimsFrom(shape, i) == front + Dims(shape)
    {
      dict := dict + ", ";
      dict := dict + Decimal(shape[i]);
      i := i + 1;
    }
  }

  lemma LengthBytes(n: nat)
    ensures n % 0x1_0000 % 256 == n % 256 && n % 0x1_0000 / 256 == n / 256 % 256
  {
  }

  /** The dimensions from i on, each with the separator in front. */
  function DimsFrom(shape: seq<nat>, i: nat): string
    requires i <= |shape|
    decreases |shape| - i
  {
    if i == |shape| then "" else ", " + Decimal(shape[i]) + DimsFrom(shape, i + 1)
  }

  lemma {:induction false} DimsSplit(shape: seq<nat>, i: nat)
    requires i < |shape|
    ensures Dims(shape[i..]) == Decimal(shape[i]) + DimsFrom(shape, i + 1)
    decreases |shape| - i
  {
    assert shape[i..][1..] == shape[i + 1..];
    if i + 1 < |shape| {
      DimsSplit(shape, i + 1);
      assert Decimal(shape[i]) + ", " + Dims(shape[i + 1..])
        == Decimal(shape[i]) + (", " + Decimal(shape[i + 1]) + DimsFrom(shape, i + 2));
    }
  }

  // ----- reading

  /** The fields of NpyArray; data is the position the data pointer ends at. */
  datatype NpyArray = NpyArray(shape: seq<nat>, wordSize: nat, fortranOrder: bool)

  /** std::out_of_range from substr; a failed assert; or a read outside a string. */
  datatype Outcome = Parsed(npy: NpyArray) | OutOfRange | AssertFailed | Undefined

  /** The conversion of an int to unsigned int. */
  function Unsigned(x: int): nat {
    x % 0x1_0000_0000
  }

  /** The loop over the dimensions: up to the next comma, which is skipped. */
  function ReadDims(text: string, n: nat): (shape: seq<nat>)
    ensures |shape| == n
  {
    if n == 0 then [] else
      var k := Find(text, ",");
      [Unsigned(Atoi(Substr(text, 0, k)))] + ReadDims(text[k + 1..], n - 1)
  }

  lemma ReadDimsStep(text: string, n: nat)
    requires n > 0
    ensures var k := Find(text, ",");
      ReadDims(text, n) == [Unsigned(Atoi(Substr(text, 0, k)))] + ReadDims(text[k + 1..], n - 1)
  {
  }

  function NumDims(text: string): nat
    requires text != ""
  {
    if text[|text| - 1] == ',' then 1 else Count(text, ',') + 1
  }

  /** What stands between the parentheses; without any, whatever substr makes of npos. */
  function BetweenParens(header: string): string {
    Substr(header, Find(header, "(") + 1, Find(header, ")") - Find(header, "(") - 1)
  }

  /** Where the words after the key fortranOrder are looked for. */
  function FortranAt(header: string): nat {
    Find(header, "fortranOrder") + 16
  }

  function DescrAt(header: string): nat {
    Find(header, "descr") + 9
  }

  function WordSize(header: string): nat
    requires DescrAt(header) + 2 <= |header|
  {
    var text := header[DescrAt(header) + 2..];
    Unsigned(Atoi(Substr(text, 0, Find(text, "'"))))
  }

  /** parseNpyHeaderStr. */
  function Parse(header: string): Outcome {
    if FortranAt(header) > |header| then OutOfRange
    else if BetweenParens(header) == "" || DescrAt(header) > |header| then Undefined
    else if DescrAt(header) == |header| || header[DescrAt(header)] !in "<|" then AssertFailed
    else if DescrAt(header) + 2 > |header| then OutOfRange
    else
      var text := BetweenParens(header);
      Parsed(NpyArray(ReadDims(text, NumDims(text)), WordSize(header), Substr(header, FortranAt(header), 5) == "True"))
  }

  /** std::string(data): the characters up to the first NUL. data is followed by one. */
  function CString(data: string): (s: string)
    ensures |s| <= |data| && s == data[..|s|]
  {
    if data == "" || data[0] == '\0' then "" else [data[0]] + CString(data[1..])
  }

  // ----- reading what was written

  /** The text of the dimensions holds digits, commas and blanks, and one comma less than dimensions. */
  lemma {:induction false} DimsText(shape: seq<nat>)
    requires shape != []
    ensures forall i | 0 <= i < |Dims(shape)| :: IsDigit(Dims(shape)[i]) || Dims(shape)[i] in ", "
    ensures Dims(shape) != "" && IsDigit(Dims(shape)[|Dims(shape)| - 1])
    ensures Count(Dims(shape), ',') + 1 == |shape|
  {
    hide Count, Decimal;
    var first := Decimal(shape[0]);
    if |shape| == 1 {
      CountAppend(first, "", ',');
      assert first + "" == first;
    } else {
      DimsText(shape[1..]);
      CountAppend(first, ", " + Dims(shape[1..]), ',');
      CountAppend(", ", Dims(shape[1..]), ',');
      OneComma();
      assert Dims(shape) == first + (", " + Dims(shape[1..]));
    }
  }

  lemma OneComma()
    ensures Count(", ", ',') == 1 && Count("", ',') == 0
  {
    assert ", "[1..] == " " && " "[1..] == "";
  }

  lemma {:induction false} CountAppend(a: string, b: string, c: char)
    ensures Count(a + b, c) == Count(a, c) + Count(b, c)
    ensures c !in a ==> Count(a, c) == 0
  {
    if a == "" {
      assert a + b == b;
    } else {
      CountAppend(a[1..], b, c);
      assert (a + b)[1..] == a[1..] + b;
    }
  }

  /** Reading the dimensions gives them back; blank is what is left in front from the last separator, and tail the
      comma behind a single dimension. */
  lemma {:induction false} ReadDimsBack(shape: seq<nat>, blank: string, tail: string)
    requires shape != [] && (blank == "" || blank == " ") && (tail == "" || tail == ",")
      && forall i | 0 <= i < |shape| :: shape[i] < 0x8000_0000
    ensures ReadDims(blank + Dims(shape) + tail, |shape|) == shape
  {
    hide Atoi, Find, Decimal, Dims, Substr, ReadDims;
    FirstDim(shape, blank, tail);
    ReadDimsStep(blank + Dims(shape) + tail, |shape|);
    if |shape| > 1 {
      ReadDimsBack(shape[1..], " ", tail);
    }
  }

  /** One round of the loop. */
  lemma FirstDim(shape: seq<nat>, blank: string, tail: string)
    requires shape != [] && (blank == "" || blank == " ") && (tail == "" || tail == ",") && shape[0] < 0x8000_0000
    ensures var text := blank + Dims(shape) + tail; var k := Find(text, ",");
      && Unsigned(Atoi(Substr(text, 0, k))) == shape[0]
      && (|shape| > 1 ==> text[k + 1..] == " " + Dims(shape[1..]) + tail)
  {
    hide Atoi, Find, Decimal, Substr, Dims;
    var first, text := blank + Decimal(shape[0]), blank + Dims(shape) + tail;
    BlankDecimal(blank, shape[0]);
    DimsCases(shape);
    if |shape| > 1 {
      Regroup(blank, Decimal(shape[0]), Dims(shape[1..]), tail);
      CutAtChar(text, first, ',', " " + Dims(shape[1..]) + tail);
    } else {
      CutAtTail(first, tail);
    }
  }

  lemma CutAtTail(first: string, tail: string)
    requires ',' !in first && (tail == "" || tail == ",")
    ensures Substr(first + tail, 0, Find(first + tail, ",")) == first
  {
    hide Find, Substr;
    if tail == "," {
      CutAtChar(first + tail, first, ',', "");
    } else {
      assert first + tail == first;
      FindNoChar(first, ',');
      SubstrAll(first);
    }
  }

  lemma DimsCases(shape: seq<nat>)
    requires shape != []
    ensures Dims(shape) == if |shape| == 1 then Decimal(shape[0]) else Decimal(shape[0]) + ", " + Dims(shape[1..])
  {
  }

  lemma Regroup(a: string, b: string, c: string, d: string)
    ensures a + (b + ", " + c) + d == (a + b) + "," + (" " + c + d)
  {
  }

  lemma CutAtChar(text: string, first: string, c: char, rest: string)
    requires c !in first && text == first + [c] + rest
    ensures var k := Find(text, [c]); k == |first| && Substr(text, 0, k) == first && text[k + 1..] == rest
  {
    FindChar(first, c, rest);
  }

  lemma SubstrAll(s: string)
    ensures Substr(s, 0, -1) == s
  {
  }

  lemma BlankDecimal(blank: string, n: nat)
    requires blank == "" || blank == " "
    ensures ',' !in blank + Decimal(n) && Atoi(blank + Decimal(n)) == n
  {
    AtoiDecimal(n);
    assert "" + Decimal(n) == Decimal(n);
  }

  lemma ShapeReadBack(shape: seq<nat>)
    requires shape != [] && forall i | 0 <= i < |shape| :: shape[i] < 0x8000_0000
    ensures ShapeText(shape) != "" && NumDims(ShapeText(shape)) == |shape|
    ensures ReadDims(ShapeText(shape), |shape|) == shape
  {
    hide ReadDims, Dims, Count, Decimal, Find, Atoi, Substr;
    DimsText(shape);
    var tail := if |shape| == 1 then "," else "";
    ReadDimsBack(shape, "", tail);
    assert "" + Dims(shape) + tail == ShapeText(shape);
    assert tail == "" ==> ShapeText(shape) == Dims(shape);
  }

  // ----- finding the parts in what the parser is given

  /** What the parser is given: the dictionary without its first character, and the payload up to the first NUL. */
  function Given(t: ElementType, shape: seq<nat>, payload: string): string
    requires shape != []
  {
    Padded(Dict(t, shape))[1..] + CString(payload)
  }

  const DESCR := "'descr': '"
  const ORDER := "', 'fortran_order': False, 'shape': "

  /** The front of the dictionary without its first character and its last, the parenthesis. */
  function Head(t: ElementType): string {
    DESCR + [t.endian] + [t.kind] + Decimal(t.size) + ORDER
  }

  /** What comes behind the parentheses. */
  function Behind(t: ElementType, shape: seq<nat>, payload: string): string
    requires shape != []
  {
    ", }" + Blanks(15 - (10 + |Dict(t, shape)|) % 16) + "\n" + CString(payload)
  }

  lemma GivenParts(t: ElementType, shape: seq<nat>, payload: string)
    requires shape != []
    ensures Given(t, shape, payload) == Head(t) + "(" + ShapeText(shape) + ")" + Behind(t, shape, payload)
  {
    hide ShapeText, Decimal, CString, Blanks;
    FrontIsHead(t);
    var blanks := Blanks(15 - (10 + |Dict(t, shape)|) % 16);
    assert Padded(Dict(t, shape)) == "{" + (Head(t) + "(" + ShapeText(shape) + ")" + ", }" + blanks + "\n");
    assert Padded(Dict(t, shape))[1..] == Head(t) + "(" + ShapeText(shape) + ")" + ", }" + blanks + "\n";
  }

  lemma FrontIsHead(t: ElementType)
    ensures Front(t) == "{" + Head(t) + "("
  {
  }

  lemma NoParens(t: ElementType, shape: seq<nat>)
    requires Known(t) && shape != []
    ensures '(' !in Head(t) && ')' !in Head(t) && ')' !in ShapeText(shape)
  {
    hide Head, Dims;
    HeadNoParens(t);
    DimsText(shape);
  }

  lemma NoneInConcat(a: string, b: string)
    ensures '(' !in a && '(' !in b ==> '(' !in a + b
    ensures ')' !in a && ')' !in b ==> ')' !in a + b
  {
  }

  lemma HeadNoParens(t: ElementType)
    requires Known(t)
    ensures '(' !in Head(t) && ')' !in Head(t)
  {
    hide Decimal;
    NoneInConcat(DESCR, [t.endian]);
    NoneInConcat(DESCR + [t.endian], [t.kind]);
    NoneInConcat(DESCR + [t.endian] + [t.kind], Decimal(t.size));
    NoneInConcat(DESCR + [t.endian] + [t.kind] + Decimal(t.size), ORDER);
  }

  /** The shape is what stands between the parentheses. */
  lemma ParensFound(t: ElementType, shape: seq<nat>, payload: string)
    requires Known(t) && shape != []
    ensures BetweenParens(Given(t, shape, payload)) == ShapeText(shape)
  {
    hide Find, Head, ShapeText, Given, Behind;
    var s := Given(t, shape, payload);
    GivenParts(t, shape, payload);
    var rest := Behind(t, shape, payload);
    NoParens(t, shape);
    var a, b := Head(t), ShapeText(shape);
    FindChar(a, '(', b + ")" + rest);
    assert s == a + "(" + (b + ")" + rest);
    FindChar(a + "(" + b, ')', rest);
    assert s == a + "(" + b + ")" + rest;
    assert s[|a| + 1..|a| + 1 + |b|] == b;
  }

  /** The key descr is the first thing in the text. */
  lemma DescrFound(t: ElementType, rest: string)
    ensures Find(Head(t) + rest, "descr") == 1
  {
    var s := Head(t) + rest;
    assert s[0] == '\'';
    assert s[..5] != "descr" by { assert s[..5][0] == s[0]; }
    assert s[1..][..5] == "descr";
  }

  lemma DropPrefix(a: string, b: string, c: string, d: string)
    requires c != ""
    ensures (a + b + c + d)[|a|..] == b + [c[0]] + (c[1..] + d)
  {
  }

  lemma WordFound(t: ElementType, rest: string)
    requires t.size < 0x8000_0000
    ensures var s := Head(t) + rest;
      && DescrAt(s) + 2 <= |s| && s[DescrAt(s)] == t.endian && WordSize(s) == t.size
  {
    hide Find, Atoi, Decimal;
    var s := Head(t) + rest;
    DescrFound(t, rest);
    assert DescrAt(s) == 10 == |DESCR|;
    var digits := Decimal(t.size);
    DropPrefix(DESCR + [t.endian] + [t.kind], digits, ORDER, rest);
    CutAtChar(s[12..], digits, '\'', ORDER[1..] + rest);
    AtoiDecimal(t.size);
  }

  // ----- the key that is looked for but not written

  const KEY := "fortranOrder"

  /** The parser looks for a word 16 characters behind the first occurrence of the key, wherever that is. */
  predicate KeyTooLate(payload: string) {
    Find(CString(payload), KEY) >= 0 && Find(CString(payload), KEY) + 16 > |CString(payload)|
  }

  /** Printable, and without the letter that the key has and the dictionary does not. */
  predicate Plain(s: string) {
    forall i | 0 <= i < |s| :: ' ' <= s[i] <= '~' && s[i] != 'O'
  }

  lemma DictPlain(t: ElementType, shape: seq<nat>)
    requires Known(t) && shape != []
    ensures Plain(Dict(t, shape))
  {
    hide Dims, Front;
    FrontPlain(t);
    DimsText(shape);
    PlainConcat(Dims(shape), if |shape| == 1 then "," else "");
    PlainConcat(Front(t), ShapeText(shape));
    PlainConcat(Front(t) + ShapeText(shape), "), }");
  }

  lemma FrontPlain(t: ElementType)
    requires Known(t)
    ensures Plain(Front(t))
  {
    hide Decimal;
    PlainConcat("{'descr': '", [t.endian]);
    PlainConcat("{'descr': '" + [t.endian], [t.kind]);
    PlainConcat("{'descr': '" + [t.endian] + [t.kind], Decimal(t.size));
    PlainConcat("{'descr': '" + [t.endian] + [t.kind] + Decimal(t.size), "', 'fortran_order': False, 'shape': (");
  }

  lemma PlainConcat(a: string, b: string)
    requires Plain(a) && Plain(b)
    ensures Plain(a + b)
  {
  }

  lemma PaddedPlain(t: ElementType, shape: seq<nat>)
    requires Known(t) && shape != []
    ensures var a := Padded(Dict(t, shape))[1..]; |a| >= 1 && Plain(a[..|a| - 1]) && a[|a| - 1] == '\n'
  {
    hide Dict;
    DictPlain(t, shape);
    FrontNotEmpty(t, shape);
  }

  lemma FrontNotEmpty(t: ElementType, shape: seq<nat>)
    requires shape != []
    ensures |Dict(t, shape)| > 16
  {
  }

  lemma KeyOnlyInPayload(t: ElementType, shape: seq<nat>, payload: string)
    requires Known(t) && shape != []
    ensures FortranAt(Given(t, shape, payload)) > |Given(t, shape, payload)| <==> KeyTooLate(payload)
  {
    hide Find, CString, Dict;
    var a := Padded(Dict(t, shape))[1..];
    PaddedPlain(t, shape);
    assert KEY[7] == 'O';
    assert 'O' !in a && a[|a| - 1] !in KEY;
    FindBehind(a, CString(payload), KEY, 7);
    GivenLong(t, shape, payload);
  }

  lemma GivenLong(t: ElementType, shape: seq<nat>, payload: string)
    requires shape != []
    ensures |Given(t, shape, payload)| >= 16
  {
    FrontIsHead(t);
  }

  // ----- the round trip

  lemma {:induction false} CStringAppend(a: string, b: string)
    requires '\0' !in a
    ensures CString(a + b) == a + CString(b)
  {
    if a == "" {
      assert a + b == b;
    } else {
      assert a[0] in a;
      assert (a + b)[1..] == a[1..] + b;
      CStringAppend(a[1..], b);
    }
  }

  /** What loadNpyFromPointer reads is the dictionary and the payload up to its first NUL. */
  lemma GivenIsRead(t: ElementType, shape: seq<nat>, payload: string)
    requires Known(t) && shape != []
    ensures |Header(t, shape)| >= 11 && CString((Header(t, shape) + payload)[11..]) == Given(t, shape, payload)
  {
    hide Dict;
    PaddedPlain(t, shape);
    var a := Padded(Dict(t, shape))[1..];
    assert '\0' !in a;
    assert (Header(t, shape) + payload)[11..] == a + payload;
    CStringAppend(a, payload);
  }

  /** Reading a header that was written: the shape and the element size come back whatever the payload is, except
      that parsing throws exactly for a payload with the key too near its first NUL, and asserts exactly for
      big-endian data. */
  lemma RoundTrip(t: ElementType, shape: seq<nat>, payload: string)
    requires Known(t) && shape != [] && t.size < 0x8000_0000 && forall i | 0 <= i < |shape| :: shape[i] < 0x8000_0000
    ensures |Header(t, shape)| >= 11
    ensures var r := Parse(CString((Header(t, shape) + payload)[11..]));
      && (r == OutOfRange <==> KeyTooLate(payload))
      && (!KeyTooLate(payload) && t.endian == '<' ==> r.Parsed? && r.npy.shape == shape && r.npy.wordSize == t.size)
      && (!KeyTooLate(payload) && t.endian == '>' ==> r == AssertFailed)
  {
    hide Find, CString, Given, Head, ShapeText, Behind, Header, FortranAt, DescrAt, WordSize, BetweenParens, ReadDims,
      NumDims, KeyTooLate;
    GivenIsRead(t, shape, payload);
    GivenParts(t, shape, payload);
    var rest := "(" + ShapeText(shape) + ")" + Behind(t, shape, payload);
    assert Given(t, shape, payload) == Head(t) + rest;
    WordFound(t, rest);
    ParensFound(t, shape, payload);
    ShapeReadBack(shape);
    KeyOnlyInPayload(t, shape, payload);
  }

  /** Such a payload: the text of the key itself. */
  lemma KeyAsPayload()
    ensures KeyTooLate(KEY)
  {
    assert KEY[..12] == KEY;
    CStringAppend(KEY, "");
    assert KEY + "" == KEY && KEY + CString("") == KEY;
  }

  /** The first newline from the dictionary on is the header's last character. */
  lemma PayloadStart(t: ElementType, shape: seq<nat>, payload: string)
    requires Known(t) && shape != []
    ensures var n := |Header(t, shape)|; var data := Header(t, shape) + payload;
      && n >= 27 && data[n - 1] == '\n' && forall i | 11 <= i < n - 1 :: data[i] != '\n'
  {
    hide Dict;
    PaddedPlain(t, shape);
    FrontNotEmpty(t, shape);
    var n, a := |Header(t, shape)|, Padded(Dict(t, shape))[1..];
    var data := Header(t, shape) + payload;
    forall i | 11 <= i < n - 1
      ensures data[i] != '\n'
    {
      assert data[i] == a[i - 11] == a[..|a| - 1][i - 11];
    }
    assert data[n - 1] == a[|a| - 1];
  }

  // ----- the two readers

  /** parseNpyHeaderStr, step by step. */
  method ParseNpyHeaderStr(header: string) returns (r: Outcome)
    ensures r == Parse(header)
  {
    hide Find, Count, Atoi, ReadDims, Substr;
    // the order flag
    var loc1 := Find(header, "fortranOrder") + 16;
    if loc1 > |header| {
      return OutOfRange;
    }
    var fortranOrder := Substr(header, loc1, 5) == "True";
    // shape
    loc1 := Find(header, "(");
    var loc2 := Find(header, ")");
    var strShape := Substr(header, loc1 + 1, loc2 - loc1 - 1);
    if strShape == "" {
      return Undefined;
    }
    var ndims := if strShape[|strShape| - 1] == ',' then 1 else Count(strShape, ',') + 1;
    var shape := ReadShape(strShape, ndims);
    // byte order and word size
    loc1 := Find(header, "descr") + 9;
    if loc1 > |header| {
      return Undefined;
    }
    var littleEndian := loc1 < |header| && header[loc1] in "<|";
    if !littleEndian {
      return AssertFailed;
    }
    if loc1 + 2 > |header| {
      return OutOfRange;
    }
    var strWs := header[loc1 + 2..];
    loc2 := Find(strWs, "'");
    var wordSize := Unsigned(Atoi(Substr(strWs, 0, loc2)));
    return Parsed(NpyArray(shape, wordSize, fortranOrder));
  }

  /** The loop over the dimensions. */
  method ReadShape(text: string, ndims: nat) returns (shape: seq<nat>)
    ensures shape == ReadDims(text, ndims)
  {
    hide Find, Atoi, Substr, ReadDims;
    var strShape := text;
    shape := [];
    var i := 0;
    while i < ndims
      invariant 0 <= i <= ndims && shape + ReadDims(strShape, ndims - i) == ReadDims(text, ndims)
    {
      ReadDimsStep(strShape, ndims - i);
      var loc1 := Find(strShape, ",");
      shape := shape + [Unsigned(Atoi(Substr(strShape, 0, loc1)))];
      strShape := strShape[loc1 + 1..];
      i := i + 1;
    }
  }

  /** loadNpyFromPointer: the header, and where the data pointer ends up. */
  method LoadNpyFromPointer(data: string) returns (r: Outcome, cursor: nat)
    requires |data| >= 11
    requires Parse(CString(data[11..])).Parsed? ==> '\n' in data[11..]
    ensures r == Parse(CString(data[11..]))
    ensures r.Parsed? ==>
      11 < cursor <= |data| && data[cursor - 1] == '\n' && forall i | 11 <= i < cursor - 1 :: data[i] != '\n'
  {
    hide Parse;
    cursor := 11;
    r := ParseNpyHeaderStr(CString(data[11..]));
    if !r.Parsed? {
      return;
    }
    var k :| 0 <= k < |data[11..]| && data[11..][k] == '\n';
    assert data[11 + k] == '\n';
    // past the end of the header line
    while data[cursor] != '\n'
      invariant 11 <= cursor <= 11 + k && forall i | 11 <= i < cursor :: data[i] != '\n'
      decreases 11 + k - cursor
    {
      cursor := cursor + 1;
    }
    cursor := cursor + 1;
  }

  /** Written, then loaded from memory: shape and element size are back, and the data pointer is at the first byte of
      the payload. */
  method WriteThenLoad(t: ElementType, shape: seq<nat>, payload: string) returns (r: Outcome, cursor: nat)
    requires Known(t) && shape != [] && t.size < 0x8000_0000 && forall i | 0 <= i < |shape| :: shape[i] < 0x8000_0000
    ensures r == OutOfRange <==> KeyTooLate(payload)
    ensures !KeyTooLate(payload) && t.endian == '<' ==>
      r.Parsed? && r.npy.shape == shape && r.npy.wordSize == t.size && cursor == |Header(t, shape)|
  {
    hide Parse, CString, Header, KeyTooLate;
    var header := CreateNpyHeader(t, shape);
    RoundTrip(t, shape, payload);
    PayloadStart(t, shape, payload);
    assert (header + payload)[11..][|header| - 12] == '\n';
    r, cursor := LoadNpyFromPointer(header + payload);
  }
}
