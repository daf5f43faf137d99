/** Control values and messages, and their textual form. Floating-point numbers are of any type,
    with any way of printing and parsing them. */
module ControlText {
  import opened Basics

  datatype FloatText<!F> = FloatText(show: F -> string, parse: string -> Option<F>)

  const MIN_I64: int := -0x8000_0000_0000_0000
  const MAX_I64: int := 0x7FFF_FFFF_FFFF_FFFF
  const MAX_U64: nat := 0xFFFF_FFFF_FFFF_FFFF

  datatype Rgba<F> = Rgba(r: F, g: F, b: F, a: F)

  datatype ControlValue<F> =
    | Float(representation: string, float: F)
    | Int(representation: string, n: int)
    | Uint(representation: string, u: nat)
    | Bool(b: bool)
    | Str(text: string)
    | Color(representation: string, colorSpace: string, rgba: Rgba<F>)

  datatype ControlMessage<F> = Message(selector: string, atoms: seq<ControlValue<F>>)

  function FloatValue<F>(value: F): ControlValue<F> {
    Float("f32", value)
  }

  function IntValue<F>(n: int): ControlValue<F> {
    Int("i32", n)
  }

  function UintValue<F>(n: nat): ControlValue<F> {
    Uint("u32", n)
  }

  function ColorValue<F>(rgba: Rgba<F>): ControlValue<F> {
    Color("rgba32f", "linear", rgba)
  }

  function Bang<F>(): ControlMessage<F> {
    Message("bang", [])
  }

  /** The selector that announces a value of each kind. */
  function SelectorOf<F>(value: ControlValue<F>): string {
    match value
    case Float(_, _) => "float"
    case Int(_, _) => "int"
    case Uint(_, _) => "uint"
    case Bool(_) => "bool"
    case Str(_) => "symbol"
    case Color(_, _, _) => "color"
  }

  function FromValue<F>(value: ControlValue<F>): ControlMessage<F> {
    Message(SelectorOf(value), [value])
  }

  // ---- Characters and tokens -------------------------------------------------------------------------

  /** The characters with the Unicode property White_Space. */
  predicate IsSpace(c: char) {
    var n := c as int;
    9 <= n <= 13 || n == 32 || n == 0x85 || n == 0xA0 || n == 0x1680 || 0x2000 <= n <= 0x200A
    || n == 0x2028 || n == 0x2029 || n == 0x202F || n == 0x205F || n == 0x3000
  }

  ghost predicate NoSpace(text: string) {
    forall i :: 0 <= i < |text| ==> !IsSpace(text[i])
  }

  function TrimStart(text: string): (r: string)
    ensures |r| <= |text| && (r != "" ==> !IsSpace(r[0]))
  {
    if text != "" && IsSpace(text[0]) then TrimStart(text[1..]) else text
  }

  function TrimEnd(text: string): (r: string)
    ensures |r| <= |text| && r <= text
  {
    if text != "" && IsSpace(text[|text| - 1]) then TrimEnd(text[..|text| - 1]) else text
  }

  function Trim(text: string): string {
    TrimEnd(TrimStart(text))
  }

  /** The text before the first space. */
  function Head(text: string): (r: string)
    ensures |r| <= |text| && r <= text && NoSpace(r)
    ensures |r| < |text| ==> IsSpace(text[|r|])
    ensures text != "" && !IsSpace(text[0]) ==> r != ""
  {
    if text == "" || IsSpace(text[0]) then "" else [text[0]] + Head(text[1..])
  }

  /** The text after the first space, if there is one. */
  function AfterHead(text: string): string {
    if |Head(text)| < |text| then text[|Head(text)| + 1..] else ""
  }

  /** The parts of a text between spaces. */
  function Tokens(text: string): seq<string>
    decreases |text|
  {
    var rest := TrimStart(text);
    if rest == "" then [] else [Head(rest)] + Tokens(rest[|Head(rest)|..])
  }

  function Join(parts: seq<string>): string {
    if parts == [] then "" else if |parts| == 1 then parts[0] else parts[0] + " " + Join(parts[1..])
  }

  function Lower(c: char): char {
    if 'A' <= c <= 'Z' then (c as int + 32) as char else c
  }

  function LowerAll(text: string): (r: string)
    ensures |r| == |text| && forall i :: 0 <= i < |r| ==> r[i] == Lower(text[i])
  {
    seq(|text|, i requires 0 <= i < |text| => Lower(text[i]))
  }

  // ---- Parsing -----------------------------------------------------------------------------------------

  /** A word, whole number or float, tried in this order. */
  function ParseScalar<F>(ft: FloatText<F>, token: string): Option<ControlValue<F>> {
    var word := LowerAll(token);
    if word == "true" || word == "on" then Some(Bool(true))
    else if word == "false" || word == "off" then Some(Bool(false))
    else
      match ParseSigned(token, MIN_I64, MAX_I64)
      case Some(n) => Some(IntValue(n))
      case None =>
        match ft.parse(token)
        case Some(x) => Some(FloatValue(x))
        case None => None
  }

  function ParseColor<F>(ft: FloatText<F>, tokens: seq<string>): Option<ControlValue<F>> {
    if |tokens| != 4 then None else
      var r, g, b, a := ft.parse(tokens[0]), ft.parse(tokens[1]), ft.parse(tokens[2]), ft.parse(tokens[3]);
      if r.Some? && g.Some? && b.Some? && a.Some?
      then Some(ColorValue(Rgba(r.value, g.value, b.value, a.value))) else None
  }

  function ScalarOrText<F>(ft: FloatText<F>, token: string): ControlValue<F> {
    match ParseScalar(ft, token)
    case Some(value) => value
    case None => Str(token)
  }

  /** The atoms of a token list. `color` and four floats make one atom. */
  function AtomsOf<F>(ft: FloatText<F>, tokens: seq<string>): seq<ControlValue<F>>
    decreases |tokens|
  {
    if tokens == [] then []
    else if tokens[0] == "color" && |tokens| > 4 && ParseColor(ft, tokens[1..5]).Some?
    then [ParseColor(ft, tokens[1..5]).value] + AtomsOf(ft, tokens[5..])
    else [ScalarOrText(ft, tokens[0])] + AtomsOf(ft, tokens[1..])
  }

  /** The color that starts at a token, if one does. */
  function ColorAt<F>(ft: FloatText<F>, tokens: seq<string>, index: nat): (r: Option<ControlValue<F>>)
    requires index < |tokens|
    ensures r.Some? ==> index + 4 < |tokens|
  {
    if tokens[index] == "color" && index + 4 < |tokens| then ParseColor(ft, tokens[index + 1..index + 5]) else None
  }

  lemma OneMore<T>(done: seq<T>, x: T, rest: seq<T>)
    ensures done + ([x] + rest) == done + [x] + rest
  {
  }

  lemma NextAtom<F>(ft: FloatText<F>, tokens: seq<string>, index: nat)
    requires index < |tokens|
    ensures
      if ColorAt(ft, tokens, index).Some?
      then AtomsOf(ft, tokens[index..]) == [ColorAt(ft, tokens, index).value] + AtomsOf(ft, tokens[index + 5..])
      else AtomsOf(ft, tokens[index..]) == [ScalarOrText(ft, tokens[index])] + AtomsOf(ft, tokens[index + 1..])
  {
    var rest := tokens[index..];
    assert rest[1..] == tokens[index + 1..];
    if index + 4 < |tokens| {
      assert rest[1..5] == tokens[index + 1..index + 5];
      assert rest[5..] == tokens[index + 5..];
    }
  }

  /** The same atoms, collected by an index that runs over the tokens. */
  method ParseMessageAtoms<F>(ft: FloatText<F>, text: string) returns (atoms: seq<ControlValue<F>>)
    ensures atoms == AtomsOf(ft, Tokens(text))
  {
    var tokens := Tokens(text);
    atoms := [];
    var index := 0;
    assert tokens[0..] == tokens;
    while index < |tokens|
      invariant 0 <= index <= |tokens|
      invariant AtomsOf(ft, tokens) == atoms + AtomsOf(ft, tokens[index..])
    {
      NextAtom(ft, tokens, index);
      var color := ColorAt(ft, tokens, index);
      if color.Some? {
        OneMore(atoms, color.value, AtomsOf(ft, tokens[index + 5..]));
        atoms := atoms + [color.value];
        index := index + 5;
        continue;
      }
      OneMore(atoms, ScalarOrText(ft, tokens[index]), AtomsOf(ft, tokens[index + 1..]));
      atoms := atoms + [ScalarOrText(ft, tokens[index])];
      index := index + 1;
    }
  }

  /** The single token of a text. */
  function OnlyToken(text: string): Option<string> {
    var tokens := Tokens(text);
    if |tokens| == 1 then Some(tokens[0]) else None
  }

  /** The value that a typed selector announces, if the rest of the text is one. */
  function ParseTyped<F>(ft: FloatText<F>, selector: string, rest: string): Option<ControlValue<F>> {
    if selector == "color" then ParseColor(ft, Tokens(rest)) else
      match OnlyToken(rest)
      case None => None
      case Some(token) =>
        if selector == "float" then
          match ft.parse(token) { case Some(x) => Some(FloatValue(x)) case None => None }
        else if selector == "int" then
          match ParseSigned(token, MIN_I64, MAX_I64) { case Some(n) => Some(IntValue(n)) case None => None }
        else if selector == "uint" then
          match ParseUnsigned(token, MAX_U64) { case Some(n) => Some(UintValue(n)) case None => None }
        else
          var word := LowerAll(token);
          if word == "1" || word == "on" || word == "true" then Some(Bool(true))
          else if word == "0" || word == "off" || word == "false" then Some(Bool(false))
          else None
  }

  predicate IsTypedSelector(selector: string) {
    selector in ["float", "int", "uint", "bool", "color"]
  }

  function ParseText<F>(ft: FloatText<F>, text: string): ControlMessage<F> {
    var trimmed := Trim(text);
    if trimmed == "" then Message("symbol", [Str("")]) else
      var selector := Head(trimmed);
      var rest := Trim(AfterHead(trimmed));
      if selector == "bang" && rest == "" then Bang()
      else if selector == "set" then Message("set", AtomsOf(ft, Tokens(rest)))
      else if IsTypedSelector(selector) then
        match ParseTyped(ft, selector, rest)
        case Some(value) => FromValue(value)
        case None => Message(selector, AtomsOf(ft, Tokens(rest)))
      else if selector == "symbol" then Message("symbol", [Str(rest)])
      else if selector in ["on", "off", "true", "false"] && rest == "" then Message(selector, [])
      else if rest == "" then
        match ParseScalar(ft, trimmed)
        case Some(value) => FromValue(value)
        case None => Message("symbol", [Str(trimmed)])
      else Message(selector, AtomsOf(ft, Tokens(rest)))
  }

  // ---- Printing ----------------------------------------------------------------------------------------

  function ShowInt(n: int): string {
    if n < 0 then "-" + Decimal(-n) else Decimal(n)
  }

  function ShowRgba<F>(ft: FloatText<F>, c: Rgba<F>): string {
    ft.show(c.r) + " " + ft.show(c.g) + " " + ft.show(c.b) + " " + ft.show(c.a)
  }

  function ShowAtom<F>(ft: FloatText<F>, atom: ControlValue<F>): string {
    match atom
    case Float(_, x) => ft.show(x)
    case Int(_, n) => ShowInt(n)
    case Uint(_, u) => Decimal(u)
    case Bool(b) => if b then "on" else "off"
    case Str(text) => text
    case Color(_, _, c) => "color " + ShowRgba(ft, c)
  }

  function ShowAtoms<F>(ft: FloatText<F>, atoms: seq<ControlValue<F>>): (r: seq<string>)
    ensures |r| == |atoms| && forall i :: 0 <= i < |r| ==> r[i] == ShowAtom(ft, atoms[i])
  {
    seq(|atoms|, i requires 0 <= i < |atoms| => ShowAtom(ft, atoms[i]))
  }

  /** The payload of a message whose selector announces its only atom. */
  function TypedPayload<F>(ft: FloatText<F>, selector: string, atom: ControlValue<F>): Option<string> {
    if selector != SelectorOf(atom) then None
    else match atom
      case Color(_, _, c) => Some(ShowRgba(ft, c))
      case _ => Some(ShowAtom(ft, atom))
  }

  function ToText<F>(ft: FloatText<F>, message: ControlMessage<F>): string {
    if message.atoms == [] then message.selector
    else
      var payload := TypedPayload(ft, message.selector, message.atoms[0]);
      if |message.atoms| == 1 && payload.Some? then message.selector + " " + payload.value
      else message.selector + " " + Join(ShowAtoms(ft, message.atoms))
  }

  // ---- Printing, then parsing --------------------------------------------------------------------------

  lemma TrimKeeps(text: string)
    requires text != "" && !IsSpace(text[0]) && !IsSpace(text[|text| - 1])
    ensures Trim(text) == text
  {
  }

  lemma {:induction false} HeadOf(word: string, rest: string)
    requires NoSpace(word) && (rest == "" || IsSpace(rest[0]))
    ensures Head(word + rest) == word
    decreases |word|
  {
    if word == "" {
      assert word + rest == rest;
    } else {
      HeadOf(word[1..], rest);
      assert (word + rest)[1..] == word[1..] + rest;
      assert word == [word[0]] + word[1..];
    }
  }

  /** A word, a space and a payload that is trimmed split into the word and the payload. */
  lemma SplitWord(word: string, payload: string)
    requires word != "" && NoSpace(word) && payload != "" && Trim(payload) == payload
    ensures var text := word + " " + payload;
            Trim(text) == text && Head(text) == word && Trim(AfterHead(text)) == payload
  {
    var text := word + " " + payload;
    TrimmedEnds(payload);
    assert text[|text| - 1] == payload[|payload| - 1];
    TrimKeeps(text);
    assert text == word + (" " + payload);
    HeadOf(word, " " + payload);
    assert text[|word| + 1..] == payload;
  }

  lemma TrimmedEnds(payload: string)
    requires payload != "" && Trim(payload) == payload
    ensures !IsSpace(payload[0]) && !IsSpace(payload[|payload| - 1])
  {
    TrimEndLast(TrimStart(payload));
  }

  lemma {:induction false} TrimEndLast(text: string)
    ensures TrimEnd(text) == "" || !IsSpace(TrimEnd(text)[|TrimEnd(text)| - 1])
    decreases |text|
  {
    if text != "" && IsSpace(text[|text| - 1]) {
      TrimEndLast(text[..|text| - 1]);
    }
  }

  lemma OneToken(token: string)
    requires token != "" && NoSpace(token)
    ensures Tokens(token) == [token] && Trim(token) == token
  {
    HeadOf(token, "");
    assert token + "" == token;
    assert Tokens(token[|token|..]) == [];
    TrimKeeps(token);
  }

  lemma ShowIntShape(n: int)
    ensures ShowInt(n) != "" && NoSpace(ShowInt(n)) && ParseInt(ShowInt(n)) == Some(n)
  {
    if n < 0 {
      DecimalShape(-n);
      NegativeShape(Decimal(-n), -n);
    } else {
      DecimalShape(n);
    }
  }

  lemma NegativeShape(digits: string, n: nat)
    requires digits != "" && NoSpace(digits) && ParseDigits(digits) == Some(n)
    ensures NoSpace("-" + digits) && ParseInt("-" + digits) == Some(0 - n)
  {
    var text := "-" + digits;
    assert text[1..] == digits;
    assert forall i :: 0 < i < |text| ==> text[i] == digits[i - 1];
  }

  lemma DecimalShape(n: nat)
    ensures Decimal(n) != "" && NoSpace(Decimal(n)) && ParseInt(Decimal(n)) == Some(n) && Decimal(n)[0] != '-'
    ensures ParseDigits(Decimal(n)) == Some(n)
  {
    ParseDecimal(n);
  }

  lemma Words()
    ensures NoSpace("int") && NoSpace("uint") && NoSpace("bool") && NoSpace("symbol") && NoSpace("on") && NoSpace("off")
    ensures LowerAll("on") == "on" && LowerAll("off") == "off"
  {
  }

  ghost predicate PrintableSingle<F>(ft: FloatText<F>, value: ControlValue<F>) {
    match value
    case Int(r, n) => r == "i32" && MIN_I64 <= n <= MAX_I64
    case Uint(r, u) => r == "u32" && u <= MAX_U64
    case Bool(_) => true
    case Str(text) => Trim(text) == text
    case Float(r, x) => r == "f32" && PrintsBack(ft, x)
    case Color(r, space, c) => r == "rgba32f" && space == "linear" && ColorPrintsBack(ft, c)
  }

  /** The float prints as one token that parses as the same float. */
  ghost predicate PrintsBack<F>(ft: FloatText<F>, x: F) {
    ft.show(x) != "" && NoSpace(ft.show(x)) && ft.parse(ft.show(x)) == Some(x)
  }

  ghost predicate ColorPrintsBack<F>(ft: FloatText<F>, c: Rgba<F>) {
    PrintsBack(ft, c.r) && PrintsBack(ft, c.g) && PrintsBack(ft, c.b) && PrintsBack(ft, c.a)
  }

  /** A selector that announces a type is followed by its payload. */
  lemma TypedText<F>(ft: FloatText<F>, selector: string, payload: string)
    requires selector != "" && NoSpace(selector) && payload != "" && Trim(payload) == payload
    requires IsTypedSelector(selector) && selector != "bang" && selector != "set"
    requires ParseTyped(ft, selector, payload).Some?
    ensures ParseText(ft, selector + " " + payload) == FromValue(ParseTyped(ft, selector, payload).value)
  {
    SplitWord(selector, payload);
  }

  lemma IntRoundTrip<F>(ft: FloatText<F>, n: int)
    requires MIN_I64 <= n <= MAX_I64
    ensures ParseText(ft, "int" + " " + ShowInt(n)) == FromValue(IntValue(n))
  {
    Words();
    ShowIntShape(n);
    OneToken(ShowInt(n));
    TypedText(ft, "int", ShowInt(n));
  }

  lemma UintRoundTrip<F>(ft: FloatText<F>, u: nat)
    requires u <= MAX_U64
    ensures ParseText(ft, "uint" + " " + Decimal(u)) == FromValue(UintValue(u))
  {
    Words();
    DecimalShape(u);
    OneToken(Decimal(u));
    TypedText(ft, "uint", Decimal(u));
  }

  lemma BoolRoundTrip<F>(ft: FloatText<F>, b: bool)
    ensures ParseText(ft, "bool" + " " + (if b then "on" else "off")) == FromValue(Bool(b))
  {
    Words();
    var word := if b then "on" else "off";
    OneToken(word);
    TypedText(ft, "bool", word);
  }

  lemma SymbolRoundTrip<F>(ft: FloatText<F>, text: string)
    requires Trim(text) == text
    ensures ParseText(ft, "symbol" + " " + text) == FromValue(Str(text))
  {
    Words();
    if text == "" {
      EmptySymbol();
    } else {
      SplitWord("symbol", text);
    }
    assert !IsTypedSelector("symbol");
  }

  lemma FloatRoundTrip<F>(ft: FloatText<F>, x: F)
    requires PrintsBack(ft, x)
    ensures ParseText(ft, "float" + " " + ft.show(x)) == FromValue(FloatValue(x))
  {
    OneToken(ft.show(x));
    assert NoSpace("float");
    TypedText(ft, "float", ft.show(x));
  }

  /** The tokens of a color, component by component. */
  function RgbaTokens<F>(ft: FloatText<F>, c: Rgba<F>): seq<string> {
    [ft.show(c.r), ft.show(c.g), ft.show(c.b), ft.show(c.a)]
  }

  lemma JoinFour(a: string, b: string, c: string, d: string)
    ensures Join([a, b, c, d]) == a + " " + b + " " + c + " " + d
  {
    assert [a, b, c, d][1..] == [b, c, d] && [b, c, d][1..] == [c, d] && [c, d][1..] == [d];
    assert Join([c, d]) == c + " " + d;
    assert Join([b, c, d]) == b + " " + (c + " " + d);
    assert Join([a, b, c, d]) == a + " " + (b + " " + (c + " " + d));
  }

  lemma JoinedTokens(tokens: seq<string>)
    requires tokens != [] && AllTokens(tokens)
    ensures Join(tokens) != "" && Trim(Join(tokens)) == Join(tokens) && Tokens(Join(tokens)) == tokens
  {
    JoinShape(tokens);
    TrimKeeps(Join(tokens));
    TokensOfJoin(tokens);
  }

  lemma ColorRoundTrip<F>(ft: FloatText<F>, c: Rgba<F>)
    requires ColorPrintsBack(ft, c)
    ensures ParseText(ft, "color" + " " + ShowRgba(ft, c)) == FromValue(ColorValue(c))
  {
    var tokens := RgbaTokens(ft, c);
    JoinedTokens(tokens);
    JoinFour(tokens[0], tokens[1], tokens[2], tokens[3]);
    assert NoSpace("color");
    assert ParseTyped(ft, "color", Join(tokens)) == ParseColor(ft, tokens);
    TypedText(ft, "color", Join(tokens));
  }

  /** Printing and parsing a typed message with a single value in its default representation gives the
      message back, if strings are trimmed and floats print and parse back. */
  lemma TypedRoundTrip<F>(ft: FloatText<F>, value: ControlValue<F>)
    requires PrintableSingle(ft, value)
    ensures ParseText(ft, ToText(ft, FromValue(value))) == FromValue(value)
  {
    match value {
      case Int(_, n) => IntRoundTrip(ft, n);
      case Uint(_, u) => UintRoundTrip(ft, u);
      case Bool(b) => BoolRoundTrip(ft, b);
      case Str(text) => SymbolRoundTrip(ft, text);
      case Float(_, x) => FloatRoundTrip(ft, x);
      case Color(_, _, c) => ColorRoundTrip(ft, c);
    }
  }

  lemma EmptySymbol()
    ensures Trim("symbol" + " " + "") == "symbol" && Head("symbol") == "symbol" && Trim(AfterHead("symbol")) == ""
  {
    var text := "symbol" + " " + "";
    assert text[..6] == "symbol";
    assert TrimEnd(text) == TrimEnd(text[..6]);
    Words();
    HeadOf("symbol", "");
    assert "symbol" + "" == "symbol";
  }

  // ---- Lists of atoms ------------------------------------------------------------------------------

  /** A text atom that prints as one token and does not look like anything else. */
  ghost predicate PlainToken<F>(ft: FloatText<F>, token: string) {
    token != "" && NoSpace(token) && token != "color" && ParseScalar(ft, token).None?
  }

  ghost predicate PrintableAtom<F>(ft: FloatText<F>, atom: ControlValue<F>) {
    match atom
    case Int(r, n) => r == "i32" && MIN_I64 <= n <= MAX_I64
    case Bool(_) => true
    case Str(text) => PlainToken(ft, text)
    case Float(_, x) => PrintsBack(ft, x) && ft.show(x) != "color" && ParseScalar(ft, ft.show(x)) == Some(atom)
    case Color(r, space, c) => r == "rgba32f" && space == "linear" && ColorPrintsBack(ft, c)
    case Uint(_, _) => false
  }

  lemma IntAtomParses<F>(ft: FloatText<F>, n: int)
    requires MIN_I64 <= n <= MAX_I64
    ensures ParseScalar(ft, ShowInt(n)) == Some(IntValue(n)) && ShowInt(n) != "color"
  {
    ShowIntShape(n);
    ParseDecimal(if n < 0 then -n else n);
    var t := ShowInt(n);
    assert t[0] == '-' || IsDigit(t[0]);
    NotAWord(t);
  }

  lemma NotAWord(t: string)
    requires t != "" && (t[0] == '-' || IsDigit(t[0]))
    ensures LowerAll(t) != "true" && LowerAll(t) != "on" && LowerAll(t) != "false" && LowerAll(t) != "off"
            && t != "color"
  {
    assert LowerAll(t)[0] == t[0];
    assert "true"[0] == 't' && "on"[0] == 'o' && "false"[0] == 'f' && "off"[0] == 'o' && "color"[0] == 'c';
  }

  lemma BoolAtomParses<F>(ft: FloatText<F>, b: bool)
    ensures var word := if b then "on" else "off";
            word != "" && NoSpace(word) && word != "color" && ParseScalar(ft, word) == Some(Bool(b))
  {
    Words();
  }

  /** A printable atom other than a color prints as one token, which parses back to it. */
  lemma AtomRoundTrip<F>(ft: FloatText<F>, atom: ControlValue<F>)
    requires PrintableAtom(ft, atom) && !atom.Color?
    ensures var token := ShowAtom(ft, atom);
            token != "" && NoSpace(token) && token != "color" && ScalarOrText(ft, token) == atom
  {
    match atom {
      case Int(_, n) =>
        ShowIntShape(n);
        IntAtomParses(ft, n);
      case Bool(b) =>
        BoolAtomParses(ft, b);
      case _ =>
    }
  }

  ghost predicate AllTokens(tokens: seq<string>) {
    forall i :: 0 <= i < |tokens| ==> tokens[i] != "" && NoSpace(tokens[i])
  }

  lemma {:induction false} JoinShape(tokens: seq<string>)
    requires AllTokens(tokens) && tokens != []
    ensures Join(tokens) != "" && !IsSpace(Join(tokens)[0]) && !IsSpace(Join(tokens)[|Join(tokens)| - 1])
    decreases |tokens|
  {
    if |tokens| > 1 {
      JoinShape(tokens[1..]);
      var rest := Join(tokens[1..]);
      assert Join(tokens)[0] == tokens[0][0];
      assert Join(tokens)[|Join(tokens)| - 1] == rest[|rest| - 1];
    }
  }

  lemma SkipSpace(text: string)
    requires text != "" && IsSpace(text[0])
    ensures Tokens(text) == Tokens(text[1..])
  {
  }

  lemma {:induction false} TokensOfJoin(tokens: seq<string>)
    requires AllTokens(tokens)
    ensures Tokens(Join(tokens)) == tokens
    decreases |tokens|
  {
    if tokens == [] {
    } else if |tokens| == 1 {
      OneToken(tokens[0]);
    } else {
      TokensOfJoin(tokens[1..]);
      var rest := " " + Join(tokens[1..]);
      HeadOf(tokens[0], rest);
      assert Join(tokens) == tokens[0] + rest;
      assert Join(tokens)[|tokens[0]|..] == rest;
      SkipSpace(rest);
      assert rest[1..] == Join(tokens[1..]);
      assert TrimStart(Join(tokens)) == Join(tokens);
      assert tokens == [tokens[0]] + tokens[1..];
    }
  }

  /** The tokens that an atom prints as. */
  function AtomTokens<F>(ft: FloatText<F>, atom: ControlValue<F>): seq<string> {
    match atom
    case Color(_, _, c) => ["color"] + RgbaTokens(ft, c)
    case _ => [ShowAtom(ft, atom)]
  }

  function AllAtomTokens<F>(ft: FloatText<F>, atoms: seq<ControlValue<F>>): seq<string> {
    if atoms == [] then [] else AtomTokens(ft, atoms[0]) + AllAtomTokens(ft, atoms[1..])
  }

  lemma AtomPrintsTokens<F>(ft: FloatText<F>, atom: ControlValue<F>)
    requires PrintableAtom(ft, atom)
    ensures AllTokens(AtomTokens(ft, atom)) && Join(AtomTokens(ft, atom)) == ShowAtom(ft, atom)
  {
    if atom.Color? {
      var tokens := RgbaTokens(ft, atom.rgba);
      JoinFour(tokens[0], tokens[1], tokens[2], tokens[3]);
      assert (["color"] + tokens)[1..] == tokens;
      assert NoSpace("color");
    } else {
      AtomRoundTrip(ft, atom);
    }
  }

  lemma {:induction false} JoinBoth(a: seq<string>, b: seq<string>)
    requires a != [] && b != []
    ensures Join(a + b) == Join(a) + " " + Join(b)
    decreases |a|
  {
    assert (a + b)[1..] == a[1..] + b;
    if |a| > 1 {
      JoinBoth(a[1..], b);
    } else {
      assert a[1..] + b == b;
    }
  }

  lemma {:induction false} AtomsPrintTokens<F>(ft: FloatText<F>, atoms: seq<ControlValue<F>>)
    requires forall i :: 0 <= i < |atoms| ==> PrintableAtom(ft, atoms[i])
    ensures AllTokens(AllAtomTokens(ft, atoms)) && (atoms != [] ==> AllAtomTokens(ft, atoms) != [])
    ensures Join(ShowAtoms(ft, atoms)) == Join(AllAtomTokens(ft, atoms))
    decreases |atoms|
  {
    if atoms != [] {
      AtomPrintsTokens(ft, atoms[0]);
      AtomsPrintTokens(ft, atoms[1..]);
      var shown := ShowAtoms(ft, atoms);
      assert shown[1..] == ShowAtoms(ft, atoms[1..]);
      if |atoms| == 1 {
        assert AllAtomTokens(ft, atoms) == AtomTokens(ft, atoms[0]);
      } else {
        JoinBoth(AtomTokens(ft, atoms[0]), AllAtomTokens(ft, atoms[1..]));
      }
    }
  }

  lemma FirstAtomBack<F>(ft: FloatText<F>, atom: ControlValue<F>, rest: seq<string>)
    requires PrintableAtom(ft, atom)
    ensures AtomsOf(ft, AtomTokens(ft, atom) + rest) == [atom] + AtomsOf(ft, rest)
  {
    var tokens := AtomTokens(ft, atom) + rest;
    if atom.Color? {
      assert tokens[1..5] == RgbaTokens(ft, atom.rgba) && tokens[5..] == rest;
    } else {
      AtomRoundTrip(ft, atom);
      assert tokens[1..] == rest;
    }
  }

  lemma {:induction false} AtomsBack<F>(ft: FloatText<F>, atoms: seq<ControlValue<F>>)
    requires forall i :: 0 <= i < |atoms| ==> PrintableAtom(ft, atoms[i])
    ensures AtomsOf(ft, AllAtomTokens(ft, atoms)) == atoms
    decreases |atoms|
  {
    if atoms != [] {
      AtomsBack(ft, atoms[1..]);
      FirstAtomBack(ft, atoms[0], AllAtomTokens(ft, atoms[1..]));
      assert atoms == [atoms[0]] + atoms[1..];
    }
  }

  /** A selector that announces no type. */
  ghost predicate Untyped(selector: string) {
    selector != "" && NoSpace(selector) && !IsTypedSelector(selector) && selector != "symbol"
  }

  lemma UntypedText<F>(ft: FloatText<F>, selector: string, payload: string)
    requires Untyped(selector) && payload != "" && Trim(payload) == payload
    ensures ParseText(ft, selector + " " + payload) == Message(selector, AtomsOf(ft, Tokens(payload)))
  {
    SplitWord(selector, payload);
  }

  lemma UntypedHasNoPayload<F>(ft: FloatText<F>, selector: string, atom: ControlValue<F>)
    requires Untyped(selector)
    ensures TypedPayload(ft, selector, atom).None?
  {
  }

  /** Printing and parsing a message with an untyped selector and a non-empty list of whole numbers,
      truth values, plain tokens, colors and floats gives the message back, if the floats print and parse
      back and do not print like anything else. */
  lemma UntypedRoundTrip<F>(ft: FloatText<F>, message: ControlMessage<F>)
    requires Untyped(message.selector) && message.atoms != []
    requires forall i :: 0 <= i < |message.atoms| ==> PrintableAtom(ft, message.atoms[i])
    ensures ParseText(ft, ToText(ft, message)) == message
  {
    var tokens := AllAtomTokens(ft, message.atoms);
    AtomsPrintTokens(ft, message.atoms);
    AtomsBack(ft, message.atoms);
    JoinedTokens(tokens);
    UntypedHasNoPayload(ft, message.selector, message.atoms[0]);
    UntypedText(ft, message.selector, Join(tokens));
  }
}
