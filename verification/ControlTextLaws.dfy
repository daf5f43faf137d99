/** What message texts mean, word by word, without the parser's own steps. */
module ControlTextLaws {
  import opened Basics
  import opened ControlText

  // ---- Words -----------------------------------------------------------------------------------------

  /** The characters that separate words. */
  lemma Spaces(c: char)
    ensures IsSpace(c) <==>
            c as int in [9, 10, 11, 12, 13, 32, 0x85, 0xA0, 0x1680, 0x2000, 0x2001, 0x2002, 0x2003, 0x2004, 0x2005,
                         0x2006, 0x2007, 0x2008, 0x2009, 0x200A, 0x2028, 0x2029, 0x202F, 0x205F, 0x3000]
  {
  }

  ghost predicate OnlySpace(text: string) {
    forall i :: 0 <= i < |text| ==> IsSpace(text[i])
  }

  ghost predicate IsWord(text: string) {
    text != "" && NoSpace(text)
  }

  /** The text consists of the words, in order, with space before, between and after them. */
  ghost predicate Spells(text: string, words: seq<string>)
    decreases |words|
  {
    if words == [] then OnlySpace(text)
    else exists lead, rest ::
           && text == lead + words[0] + rest && OnlySpace(lead) && IsWord(words[0])
           && (rest == "" || IsSpace(rest[0])) && Spells(rest, words[1..])
  }

  lemma {:induction false} StartTrimmed(text: string) returns (lead: string)
    ensures text == lead + TrimStart(text) && OnlySpace(lead)
    decreases |text|
  {
    if text != "" && IsSpace(text[0]) {
      var more := StartTrimmed(text[1..]);
      lead := [text[0]] + more;
      assert text == [text[0]] + text[1..];
    } else {
      lead := "";
    }
  }

  lemma {:induction false} LeadTrimmed(lead: string, text: string)
    requires OnlySpace(lead)
    ensures TrimStart(lead + text) == TrimStart(text)
  {
    if lead == "" {
      assert lead + text == text;
    } else {
      assert (lead + text)[1..] == lead[1..] + text;
      LeadTrimmed(lead[1..], text);
    }
  }

  lemma SpellsMore(lead: string, word: string, rest: string, words: seq<string>)
    requires OnlySpace(lead) && IsWord(word) && (rest == "" || IsSpace(rest[0])) && Spells(rest, words)
    ensures Spells(lead + word + rest, [word] + words)
  {
    assert ([word] + words)[1..] == words;
  }

  /** The tokens of a text are its words. */
  lemma {:induction false} TokensSpell(text: string)
    ensures Spells(text, Tokens(text))
    decreases |text|
  {
    var lead := StartTrimmed(text);
    var trimmed := TrimStart(text);
    if trimmed == "" {
      assert text == lead;
    } else {
      var word := Head(trimmed);
      var rest := trimmed[|word|..];
      TokensSpell(rest);
      assert text == lead + word + rest;
      SpellsMore(lead, word, rest, Tokens(rest));
    }
  }

  lemma FirstToken(lead: string, word: string, rest: string)
    requires OnlySpace(lead) && IsWord(word) && (rest == "" || IsSpace(rest[0]))
    ensures Tokens(lead + word + rest) == [word] + Tokens(rest)
  {
    assert lead + word + rest == lead + (word + rest);
    LeadTrimmed(lead, word + rest);
    assert TrimStart(word + rest) == word + rest;
    HeadOf(word, rest);
    assert (word + rest)[|word|..] == rest;
  }

  /** A text has no other words. */
  lemma {:induction false} WordsAreTokens(text: string, words: seq<string>)
    requires Spells(text, words)
    ensures Tokens(text) == words
    decreases |words|
  {
    if words == [] {
      LeadTrimmed(text, "");
      assert text + "" == text;
    } else {
      var lead, rest :| text == lead + words[0] + rest && OnlySpace(lead) && IsWord(words[0])
                        && (rest == "" || IsSpace(rest[0])) && Spells(rest, words[1..]);
      FirstToken(lead, words[0], rest);
      WordsAreTokens(rest, words[1..]);
      assert words == [words[0]] + words[1..];
    }
  }

  /** The core is the text without the space around it. */
  ghost predicate Strips(text: string, core: string) {
    exists lead, tail :: text == lead + core + tail && OnlySpace(lead) && OnlySpace(tail)
                         && (core != "" ==> !IsSpace(core[0]) && !IsSpace(core[|core| - 1]))
  }

  lemma {:induction false} TailTrimmed(text: string, tail: string)
    requires OnlySpace(tail)
    ensures TrimEnd(text + tail) == TrimEnd(text)
    decreases |tail|
  {
    var n := |tail| - 1;
    if tail == "" {
      assert text + tail == text;
    } else {
      assert (text + tail)[..|text| + n] == text + tail[..n];
      assert (text + tail)[|text| + n] == tail[n];
      TailTrimmed(text, tail[..n]);
    }
  }

  lemma SpaceTrims(tail: string)
    requires OnlySpace(tail)
    ensures Trim(tail) == ""
  {
    LeadTrimmed(tail, "");
    assert tail + "" == tail;
  }

  lemma CoreStays(core: string, tail: string)
    requires OnlySpace(tail) && core != "" && !IsSpace(core[0]) && !IsSpace(core[|core| - 1])
    ensures Trim(core + tail) == core
  {
    assert (core + tail)[0] == core[0];
    TailTrimmed(core, tail);
  }

  lemma PartsTrim(lead: string, core: string, tail: string)
    requires OnlySpace(lead) && OnlySpace(tail)
    requires core != "" ==> !IsSpace(core[0]) && !IsSpace(core[|core| - 1])
    ensures Trim(lead + core + tail) == core
  {
    assert lead + core + tail == lead + (core + tail);
    LeadTrimmed(lead, core + tail);
    if core == "" {
      assert core + tail == tail;
      SpaceTrims(tail);
    } else {
      CoreStays(core, tail);
    }
  }

  lemma StripIsTrim(text: string, core: string)
    requires Strips(text, core)
    ensures Trim(text) == core
  {
    var lead, tail :| text == lead + core + tail && OnlySpace(lead) && OnlySpace(tail)
                      && (core != "" ==> !IsSpace(core[0]) && !IsSpace(core[|core| - 1]));
    PartsTrim(lead, core, tail);
  }

  lemma {:induction false} EndTrimmed(text: string) returns (tail: string)
    ensures text == TrimEnd(text) + tail && OnlySpace(tail)
    decreases |text|
  {
    if text != "" && IsSpace(text[|text| - 1]) {
      var more := EndTrimmed(text[..|text| - 1]);
      tail := more + [text[|text| - 1]];
      assert text == text[..|text| - 1] + [text[|text| - 1]];
    } else {
      tail := "";
    }
  }

  lemma TrimStrips(text: string)
    ensures Strips(text, Trim(text))
  {
    var lead := StartTrimmed(text);
    var tail := EndTrimmed(TrimStart(text));
    var core := Trim(text);
    TrimEndLast(TrimStart(text));
    assert text == lead + core + tail;
    assert core != "" ==> core[0] == TrimStart(text)[0];
  }

  // ---- Numbers and words for truth values --------------------------------------------------------------

  function PowerOfTen(n: nat): nat {
    if n == 0 then 1 else 10 * PowerOfTen(n - 1)
  }

  ghost predicate AllDigits(text: string) {
    forall i :: 0 <= i < |text| ==> '0' <= text[i] <= '9'
  }

  /** The number that decimal digits stand for, by their places. */
  ghost function PlaceValue(digits: string): nat
    requires AllDigits(digits)
  {
    if digits == "" then 0
    else (digits[0] as int - '0' as int) * PowerOfTen(|digits| - 1) + PlaceValue(digits[1..])
  }

  lemma {:induction false} OneMoreDigit(digits: string, c: char)
    requires AllDigits(digits) && '0' <= c <= '9'
    ensures PlaceValue(digits + [c]) == PlaceValue(digits) * 10 + (c as int - '0' as int)
  {
    if digits == "" {
      assert digits + [c] == [c] && [c][1..] == "";
      assert PowerOfTen(0) == 1;
    } else {
      OneMoreDigit(digits[1..], c);
      assert (digits + [c])[1..] == digits[1..] + [c];
      var d: nat := digits[0] as int - '0' as int;
      assert PowerOfTen(|digits|) == 10 * PowerOfTen(|digits| - 1);
      TimesTen(d, PowerOfTen(|digits| - 1));
    }
  }

  lemma TimesTen(d: nat, p: nat)
    ensures d * (10 * p) == (d * p) * 10
  {
  }

  lemma {:induction false} DigitsAreRead(text: string)
    ensures AllDigits(text) <==> ParseDigits(text).Some?
    ensures AllDigits(text) ==> ParseDigits(text) == Some(PlaceValue(text))
  {
    if text != "" {
      var n := |text| - 1;
      DigitsAreRead(text[..n]);
      assert text == text[..n] + [text[n]];
      if AllDigits(text) {
        OneMoreDigit(text[..n], text[n]);
      }
    }
  }

  /** A whole number: digits with an optional sign. */
  ghost predicate Reads(text: string, n: int) {
    exists sign: string, digits: string :: IsNumeral(text, sign, digits, n)
  }

  ghost predicate IsNumeral(text: string, sign: string, digits: string, n: int) {
    && text == sign + digits && (sign == "" || sign == "+" || sign == "-") && digits != "" && AllDigits(digits)
    && n == if sign == "-" then 0 - PlaceValue(digits) else PlaceValue(digits)
  }

  lemma NumeralIsRead(text: string, sign: string, digits: string, n: int)
    requires IsNumeral(text, sign, digits, n)
    ensures ParseInt(text) == Some(n)
  {
    DigitsAreRead(digits);
    if sign == "" {
      assert text == digits;
    } else {
      assert text[0] == sign[0] && text[1..] == digits;
    }
  }

  /** Whole numbers are read by the places of their digits, and nothing else is read as one. */
  lemma WholeNumbers(text: string, n: int)
    ensures ParseInt(text) == Some(n) <==> Reads(text, n)
  {
    if Reads(text, n) {
      var sign: string, digits: string :| IsNumeral(text, sign, digits, n);
      NumeralIsRead(text, sign, digits, n);
    }
    if ParseInt(text) == Some(n) {
      var signed := text[0] == '+' || text[0] == '-';
      var sign := if text[0] == '+' then "+" else if text[0] == '-' then "-" else "";
      var digits := if signed then text[1..] else text;
      DigitsAreRead(digits);
      assert text == sign + digits;
      assert IsNumeral(text, sign, digits, n);
    }
  }

  /** The text is the word, in letters of either case. */
  ghost predicate SaysWord(text: string, word: string) {
    |text| == |word| && forall i :: 0 <= i < |text| ==> text[i] == word[i] || IsCapital(text[i], word[i])
  }

  ghost predicate IsCapital(c: char, small: char) {
    'A' <= c <= 'Z' && c as int + 32 == small as int
  }

  lemma LowerSays(text: string, word: string)
    requires forall i :: 0 <= i < |word| ==> !('A' <= word[i] <= 'Z')
    ensures LowerAll(text) == word <==> SaysWord(text, word)
  {
    if SaysWord(text, word) {
      assert LowerAll(text) == word;
    }
  }

  // ---- Values -------------------------------------------------------------------------------------------

  ghost predicate SaysTrue(word: string) {
    SaysWord(word, "true") || SaysWord(word, "on")
  }

  ghost predicate SaysFalse(word: string) {
    SaysWord(word, "false") || SaysWord(word, "off")
  }

  /** A whole number that fits a signed 64-bit integer. */
  ghost predicate ReadsSigned(word: string, n: int) {
    Reads(word, n) && -0x8000_0000_0000_0000 <= n <= 0x7FFF_FFFF_FFFF_FFFF
  }

  /** A whole number without a minus sign that fits an unsigned 64-bit integer. */
  ghost predicate ReadsUnsigned(word: string, n: nat) {
    Reads(word, n) && n <= 0xFFFF_FFFF_FFFF_FFFF && word != "" && word[0] != '-'
  }

  /** What a word stands for by itself: a truth value, a whole number, a float, or none of them. */
  ghost function Scalar<F(!new)>(ft: FloatText<F>, word: string): Option<ControlValue<F>> {
    if SaysTrue(word) then Some(Bool(true))
    else if SaysFalse(word) then Some(Bool(false))
    else if exists n :: ReadsSigned(word, n) then
      var n :| ReadsSigned(word, n);
      Some(Int("i32", n))
    else if ft.parse(word).Some? then Some(Float("f32", ft.parse(word).value))
    else None
  }

  lemma WordsAreRead(text: string)
    ensures LowerAll(text) == "true" <==> SaysWord(text, "true")
    ensures LowerAll(text) == "on" <==> SaysWord(text, "on")
    ensures LowerAll(text) == "1" <==> SaysWord(text, "1")
    ensures LowerAll(text) == "false" <==> SaysWord(text, "false")
    ensures LowerAll(text) == "off" <==> SaysWord(text, "off")
    ensures LowerAll(text) == "0" <==> SaysWord(text, "0")
  {
    LowerSays(text, "true");
    LowerSays(text, "on");
    LowerSays(text, "1");
    LowerSays(text, "false");
    LowerSays(text, "off");
    LowerSays(text, "0");
  }

  lemma SignedIsRead(word: string, n: int)
    ensures ParseSigned(word, MIN_I64, MAX_I64) == Some(n) <==> ReadsSigned(word, n)
  {
    WholeNumbers(word, n);
  }

  lemma UnsignedIsRead(word: string, n: nat)
    ensures ParseUnsigned(word, MAX_U64) == Some(n) <==> ReadsUnsigned(word, n)
  {
    WholeNumbers(word, n);
  }

  lemma ScalarIsRead<F(!new)>(ft: FloatText<F>, word: string)
    ensures ParseScalar(ft, word) == Scalar(ft, word)
  {
    WordsAreRead(word);
    forall n ensures ParseSigned(word, MIN_I64, MAX_I64) == Some(n) <==> ReadsSigned(word, n) {
      SignedIsRead(word, n);
    }
  }

  /** Four floats in the order red, green, blue, alpha. */
  ghost predicate ReadsColor<F(!new)>(ft: FloatText<F>, words: seq<string>, value: ControlValue<F>) {
    && |words| == 4
    && exists r, g, b, a ::
         && ft.parse(words[0]) == Some(r) && ft.parse(words[1]) == Some(g)
         && ft.parse(words[2]) == Some(b) && ft.parse(words[3]) == Some(a)
         && value == Color("rgba32f", "linear", Rgba(r, g, b, a))
  }

  lemma ColorIsRead<F(!new)>(ft: FloatText<F>, words: seq<string>, value: ControlValue<F>)
    ensures ParseColor(ft, words) == Some(value) <==> ReadsColor(ft, words, value)
  {
  }

  /** What a list of words stands for: `color` and four floats make one value, other words one each,
      and a word that stands for nothing else stands for itself. */
  ghost function Values<F(!new)>(ft: FloatText<F>, words: seq<string>): seq<ControlValue<F>>
    decreases |words|
  {
    if words == [] then []
    else if words[0] == "color" && |words| >= 5 && exists value :: ReadsColor(ft, words[1..5], value) then
      var value :| ReadsColor(ft, words[1..5], value);
      [value] + Values(ft, words[5..])
    else
      [if Scalar(ft, words[0]).Some? then Scalar(ft, words[0]).value else Str(words[0])] + Values(ft, words[1..])
  }

  lemma {:induction false} ValuesAreRead<F(!new)>(ft: FloatText<F>, words: seq<string>)
    ensures AtomsOf(ft, words) == Values(ft, words)
    decreases |words|
  {
    if words != [] {
      ScalarIsRead(ft, words[0]);
      ValuesAreRead(ft, words[1..]);
      if |words| >= 5 {
        ValuesAreRead(ft, words[5..]);
        forall value ensures ParseColor(ft, words[1..5]) == Some(value) <==> ReadsColor(ft, words[1..5], value) {
          ColorIsRead(ft, words[1..5], value);
        }
      }
    }
  }

  /** How values print: truth values as switches, colors as `color` and their components in order. */
  lemma ValuesPrint<F(!new)>(ft: FloatText<F>, value: ControlValue<F>)
    ensures match value
            case Float(_, x) => ShowAtom(ft, value) == ft.show(x)
            case Int(_, n) => Reads(ShowAtom(ft, value), n)
            case Uint(_, u) => Reads(ShowAtom(ft, value), u)
            case Bool(b) => ShowAtom(ft, value) == if b then "on" else "off"
            case Str(text) => ShowAtom(ft, value) == text
            case Color(_, _, c) =>
              ShowAtom(ft, value) == Join(["color", ft.show(c.r), ft.show(c.g), ft.show(c.b), ft.show(c.a)])
  {
    match value {
      case Int(_, n) =>
        ShowIntShape(n);
        WholeNumbers(ShowInt(n), n);
      case Uint(_, u) =>
        DecimalShape(u);
        WholeNumbers(Decimal(u), u);
      case Color(_, _, c) =>
        var tokens := RgbaTokens(ft, c);
        JoinFour(tokens[0], tokens[1], tokens[2], tokens[3]);
        assert (["color"] + tokens)[1..] == tokens;
        assert ["color"] + tokens == ["color", ft.show(c.r), ft.show(c.g), ft.show(c.b), ft.show(c.a)];
      case _ =>
    }
  }

  // ---- Messages --------------------------------------------------------------------------------------------

  /** The value that the words after a typed selector stand for. */
  ghost predicate ReadsTyped<F(!new)>(ft: FloatText<F>, selector: string, words: seq<string>, value: ControlValue<F>) {
    || (selector == "color" && ReadsColor(ft, words, value))
    || (|words| == 1
        && (|| (selector == "float" && exists x :: ft.parse(words[0]) == Some(x) && value == Float("f32", x))
            || (selector == "int" && exists n :: ReadsSigned(words[0], n) && value == Int("i32", n))
            || (selector == "uint" && exists n :: ReadsUnsigned(words[0], n) && value == Uint("u32", n))
            || (selector == "bool" && (SaysTrue(words[0]) || words[0] == "1") && value == Bool(true))
            || (selector == "bool" && (SaysFalse(words[0]) || words[0] == "0") && value == Bool(false))))
  }

  lemma DigitWords(word: string)
    ensures SaysWord(word, "1") <==> word == "1"
    ensures SaysWord(word, "0") <==> word == "0"
  {
  }

  lemma TypedIsRead<F(!new)>(ft: FloatText<F>, selector: string, rest: string, value: ControlValue<F>)
    requires selector == "color" || selector == "float" || selector == "int" || selector == "uint" || selector == "bool"
    ensures ParseTyped(ft, selector, rest) == Some(value) <==> ReadsTyped(ft, selector, Tokens(rest), value)
  {
    var words := Tokens(rest);
    ColorIsRead(ft, words, value);
    if |words| == 1 {
      WordsAreRead(words[0]);
      DigitWords(words[0]);
      forall n ensures ParseSigned(words[0], MIN_I64, MAX_I64) == Some(n) <==> ReadsSigned(words[0], n) {
        SignedIsRead(words[0], n);
      }
      forall n: nat ensures ParseUnsigned(words[0], MAX_U64) == Some(n) <==> ReadsUnsigned(words[0], n) {
        UnsignedIsRead(words[0], n);
      }
    }
  }

  /** The text begins, after some space, with the selector. */
  ghost predicate Begins(text: string, lead: string, selector: string, tail: string) {
    text == lead + selector + tail && OnlySpace(lead) && IsWord(selector) && (tail == "" || IsSpace(tail[0]))
  }

  lemma LoneSelector(text: string, lead: string, selector: string, tail: string)
    requires Begins(text, lead, selector, tail) && OnlySpace(tail)
    ensures Trim(text) == selector && Head(Trim(text)) == selector && Trim(AfterHead(Trim(text))) == ""
  {
    PartsTrim(lead, selector, tail);
    HeadOf(selector, "");
    assert selector + "" == selector;
  }

  lemma SelectorAndRest(text: string, lead: string, selector: string, gap: string, rest: string, last: string)
    requires Begins(text, lead, selector, gap + rest + last) && OnlySpace(gap) && OnlySpace(last)
    requires rest != "" && !IsSpace(rest[0]) && !IsSpace(rest[|rest| - 1])
    ensures Trim(text) != "" && Head(Trim(text)) == selector && Trim(AfterHead(Trim(text))) == rest
  {
    var core := selector + (gap + rest);
    FirstOfRest(rest, last);
    assert gap != "" && (gap + rest)[0] == gap[0];
    assert core[|core| - 1] == rest[|rest| - 1] && core[0] == selector[0];
    assert text == lead + core + last;
    PartsTrim(lead, core, last);
    HeadOf(selector, gap + rest);
    RestAfter(selector, gap, rest);
  }

  lemma FirstOfRest(rest: string, last: string)
    requires rest != ""
    ensures ("" + rest + last)[0] == rest[0]
  {
  }

  lemma RestAfter(selector: string, gap: string, rest: string)
    requires gap != "" && OnlySpace(gap) && rest != "" && !IsSpace(rest[0]) && !IsSpace(rest[|rest| - 1])
    ensures Trim((selector + (gap + rest))[|selector| + 1..]) == rest
  {
    assert (selector + (gap + rest))[|selector| + 1..] == gap[1..] + rest + "";
    PartsTrim(gap[1..], rest, "");
  }

  /** The parser takes a text apart into its selector and the rest. */
  lemma TextSplits(text: string, lead: string, selector: string, tail: string, rest: string)
    requires Begins(text, lead, selector, tail) && Strips(tail, rest)
    ensures TakenApart(text, selector, rest) && (rest == "" ==> Trim(text) == selector)
  {
    var gap, last :| tail == gap + rest + last && OnlySpace(gap) && OnlySpace(last)
                     && (rest != "" ==> !IsSpace(rest[0]) && !IsSpace(rest[|rest| - 1]));
    if rest == "" {
      LoneSelector(text, lead, selector, tail);
    } else {
      SelectorAndRest(text, lead, selector, gap, rest, last);
    }
  }

  ghost predicate IsTypeName(selector: string) {
    selector == "float" || selector == "int" || selector == "uint" || selector == "bool" || selector == "color"
  }

  ghost predicate IsSwitch(selector: string) {
    selector == "on" || selector == "off" || selector == "true" || selector == "false"
  }

  /** The name of a value's type. */
  ghost predicate NamesType<F(!new)>(name: string, value: ControlValue<F>) {
    match value
    case Float(_, _) => name == "float"
    case Int(_, _) => name == "int"
    case Uint(_, _) => name == "uint"
    case Bool(_) => name == "bool"
    case Str(_) => name == "symbol"
    case Color(_, _, _) => name == "color"
  }

  /** How messages print: the selector and its atoms, separated by single spaces; a selector that names
      the type of its only atom, a color, is not repeated. */
  lemma MessagesPrint<F(!new)>(ft: FloatText<F>, message: ControlMessage<F>)
    ensures
      var atoms := message.atoms;
      ToText(ft, message) ==
      if |atoms| == 1 && atoms[0].Color? && message.selector == "color" then ShowAtom(ft, atoms[0])
      else Join([message.selector] + ShowAtoms(ft, atoms))
  {
    var shown := ShowAtoms(ft, message.atoms);
    assert ([message.selector] + shown)[1..] == shown;
    if message.atoms != [] {
      assert Join([message.selector] + shown) == message.selector + " " + Join(shown);
      if |message.atoms| == 1 {
        assert shown == [ShowAtom(ft, message.atoms[0])];
      }
    }
  }

  /** What a selector by itself means. */
  ghost predicate MeansAlone<F(!new)>(ft: FloatText<F>, selector: string, message: ControlMessage<F>) {
    if selector == "symbol" then message == Message("symbol", [Str("")])
    else if selector == "bang" || selector == "set" || IsTypeName(selector) || IsSwitch(selector) then
      message == Message(selector, [])
    else
      match Scalar(ft, selector)
      case Some(value) => NamesType(message.selector, value) && message.atoms == [value]
      case None => message == Message("symbol", [Str(selector)])
  }

  /** What a selector and the words after it mean. */
  ghost predicate MeansWith<F(!new)>(ft: FloatText<F>, selector: string, rest: string, words: seq<string>,
                                     message: ControlMessage<F>) {
    if selector == "symbol" then message == Message("symbol", [Str(rest)])
    else if IsTypeName(selector) && exists value :: ReadsTyped(ft, selector, words, value) then
      exists value :: ReadsTyped(ft, selector, words, value) && message == Message(selector, [value])
    else message == Message(selector, Values(ft, words))
  }

  lemma NoWords(rest: string)
    requires Trim(rest) == rest
    ensures Tokens(rest) == [] <==> rest == ""
  {
    if rest != "" {
      TrimmedEnds(rest);
    }
  }

  /** The words that the parser knows are different from each other. */
  lemma NamesDiffer(selector: string)
    ensures IsTypedSelector(selector) <==> IsTypeName(selector)
    ensures selector in ["on", "off", "true", "false"] <==> IsSwitch(selector)
    ensures IsTypeName(selector) || IsSwitch(selector) ==>
              selector != "set" && selector != "bang" && selector != "symbol"
    ensures !(IsTypeName(selector) && IsSwitch(selector))
  {
  }

  /** The text starts with the selector, and the rest is what comes after it. */
  ghost predicate TakenApart(text: string, selector: string, rest: string) {
    Trim(text) != "" && Head(Trim(text)) == selector && Trim(AfterHead(Trim(text))) == rest
  }

  lemma PlainIsRead<F(!new)>(ft: FloatText<F>, text: string, selector: string, rest: string)
    requires TakenApart(text, selector, rest) && !IsTypeName(selector) && selector != "symbol"
    ensures selector == "set" || rest != "" ==>
              ParseText(ft, text) == Message(selector, AtomsOf(ft, Tokens(rest)))
    ensures rest == "" && (selector == "bang" || IsSwitch(selector)) ==> ParseText(ft, text) == Message(selector, [])
    ensures rest == "" && selector != "bang" && selector != "set" && !IsSwitch(selector) ==>
              ParseText(ft, text) == match ParseScalar(ft, Trim(text))
                                     case Some(value) => FromValue(value)
                                     case None => Message("symbol", [Str(Trim(text))])
  {
    NamesDiffer(selector);
  }

  lemma SymbolIsRead<F(!new)>(ft: FloatText<F>, text: string, rest: string)
    requires TakenApart(text, "symbol", rest)
    ensures ParseText(ft, text) == Message("symbol", [Str(rest)])
  {
    NamesDiffer("symbol");
  }

  lemma TypedTextIsRead<F(!new)>(ft: FloatText<F>, text: string, selector: string, rest: string)
    requires TakenApart(text, selector, rest) && IsTypeName(selector)
    ensures ParseText(ft, text) == match ParseTyped(ft, selector, rest)
                                   case Some(value) => FromValue(value)
                                   case None => Message(selector, AtomsOf(ft, Tokens(rest)))
  {
    NamesDiffer(selector);
  }

  lemma TypedAnnounces<F(!new)>(ft: FloatText<F>, selector: string, words: seq<string>, value: ControlValue<F>)
    requires ReadsTyped(ft, selector, words, value)
    ensures FromValue(value) == Message(selector, [value])
  {
  }

  lemma AloneIsRead<F(!new)>(ft: FloatText<F>, text: string, selector: string)
    requires TakenApart(text, selector, "") && Trim(text) == selector
    ensures MeansAlone(ft, selector, ParseText(ft, text))
  {
    NamesDiffer(selector);
    assert Tokens("") == [] && AtomsOf(ft, []) == [];
    if selector == "symbol" {
      SymbolIsRead(ft, text, "");
    } else if IsTypeName(selector) {
      TypedTextIsRead(ft, text, selector, "");
    } else {
      PlainIsRead(ft, text, selector, "");
      ScalarIsRead(ft, selector);
    }
  }

  lemma WithIsRead<F(!new)>(ft: FloatText<F>, text: string, selector: string, rest: string)
    requires TakenApart(text, selector, rest) && rest != ""
    ensures MeansWith(ft, selector, rest, Tokens(rest), ParseText(ft, text))
  {
    ValuesAreRead(ft, Tokens(rest));
    if selector == "symbol" {
      SymbolIsRead(ft, text, rest);
    } else if IsTypeName(selector) {
      TypedTextIsRead(ft, text, selector, rest);
      forall value ensures ParseTyped(ft, selector, rest) == Some(value) <==>
                           ReadsTyped(ft, selector, Tokens(rest), value)
      {
        TypedIsRead(ft, selector, rest, value);
      }
      var typed := ParseTyped(ft, selector, rest);
      if typed.Some? {
        TypedAnnounces(ft, selector, Tokens(rest), typed.value);
      }
    } else {
      PlainIsRead(ft, text, selector, rest);
    }
  }

  /** The meaning of a text that is not blank, from its selector and the words after it. */
  lemma TextIsRead<F(!new)>(ft: FloatText<F>, text: string, lead: string, selector: string, tail: string, rest: string,
                            words: seq<string>)
    requires Begins(text, lead, selector, tail) && Strips(tail, rest) && Spells(rest, words)
    ensures if words == [] then MeansAlone(ft, selector, ParseText(ft, text))
            else MeansWith(ft, selector, rest, words, ParseText(ft, text))
  {
    TextSplits(text, lead, selector, tail, rest);
    WordsAreTokens(rest, words);
    StripIsTrim(tail, rest);
    var gap, last :| tail == gap + rest + last && OnlySpace(gap) && OnlySpace(last)
                     && (rest != "" ==> !IsSpace(rest[0]) && !IsSpace(rest[|rest| - 1]));
    assert Strips("" + rest + "", rest);
    assert "" + rest + "" == rest;
    StripIsTrim(rest, rest);
    NoWords(rest);
    if rest == "" {
      AloneIsRead(ft, text, selector);
    } else {
      WithIsRead(ft, text, selector, rest);
    }
  }

  /** A blank text is an empty symbol. */
  lemma BlankIsRead<F(!new)>(ft: FloatText<F>, text: string)
    requires OnlySpace(text)
    ensures ParseText(ft, text) == Message("symbol", [Str("")])
  {
    SpaceTrims(text);
  }
}
