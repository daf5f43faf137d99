/** What single events mean, kind of node by kind of node: when they are accepted, what the node then
    holds, and what it emits. */
module ControlLaws {
  import opened Basics
  import opened ExpansionEdges
  import opened ControlText
  import opened ControlValues
  import opened ControlPropagation
  import opened ControlEvents
  import opened ControlTextLaws

  // ---- Messages ------------------------------------------------------------------------------------------

  /** The message announces the value, with the selector of its kind. */
  ghost predicate Announces<F(!new)>(message: ControlMessage<F>, value: ControlValue<F>) {
    && message.atoms == [value]
    && match value
       case Float(_, _) => message.selector == "float"
       case Int(_, _) => message.selector == "int"
       case Uint(_, _) => message.selector == "uint"
       case Bool(_) => message.selector == "bool"
       case Str(_) => message.selector == "symbol"
       case Color(_, _, _) => message.selector == "color"
  }

  ghost predicate IsBangMessage<F(!new)>(message: ControlMessage<F>) {
    message == Message("bang", [])
  }

  /** The outcome: the node is left with the value, and nothing else changes. */
  ghost predicate LeavesWith<F(!new)>(s: State<F>, after: State<F>, id: string, value: ControlValue<F>) {
    after == State(s.values[id := value], s.channels, s.operatorRight)
  }

  /** The only emission is this value, at this port of the node. */
  ghost predicate EmitsOnly<F(!new)>(emitted: seq<Emission<F>>, id: string, port: string, value: ControlValue<F>) {
    && |emitted| == 1 && emitted[0].nodeId == id && emitted[0].portId == port
    && Announces(emitted[0].message, value)
  }

  ghost predicate Present<F(!new)>(nodes: seq<ControlNode<F>>, node: ControlNode<F>) {
    FindNode(nodes, node.id) == Some(node)
  }

  // ---- Numbers ---------------------------------------------------------------------------------------------

  /** The number that a value counts as, if it is a number or a truth value. */
  ghost predicate CountsAs<F(!new)>(ops: Numbers<F>, value: ControlValue<F>, x: F) {
    match value
    case Float(_, f) => x == f
    case Int(_, n) => x == ops.fromInt(n)
    case Uint(_, u) => x == ops.fromInt(u)
    case Bool(b) => x == if b then ops.one else ops.zero
    case Str(_) => false
    case Color(_, _, _) => false
  }

  ghost predicate IsNumber<F(!new)>(value: ControlValue<F>) {
    value.Float? || value.Int? || value.Uint? || value.Bool?
  }

  /** The finite number: others count as zero. */
  ghost function Finite<F(!new)>(ops: Numbers<F>, x: F): F {
    if ops.isFinite(x) then x else ops.zero
  }

  /** The bounds of a signed representation. */
  ghost predicate SignedBounds(representation: string, min: int, max: int) {
    || (representation == "i64" && min == -9223372036854775808 && max == 9223372036854775807)
    || (representation == "i32" && min == -2147483648 && max == 2147483647)
    || (representation == "i16" && min == -32768 && max == 32767)
    || (representation == "i8" && min == -128 && max == 127)
  }

  ghost predicate UnsignedBound(representation: string, max: nat) {
    || (representation == "u64" && max == 18446744073709551615)
    || (representation == "u32" && max == 4294967295)
    || (representation == "u16" && max == 65535)
    || (representation == "u8" && max == 255)
  }

  /** What a number, integer or colour node that held one value holds after it accepted an atom: the
      atom's number, or its colour, in the node's own representation. */
  ghost predicate Stores<F(!new)>(ops: Numbers<F>, held: ControlValue<F>, atom: ControlValue<F>,
                                  next: ControlValue<F>) {
    match held
    case Float(r, _) => exists x :: CountsAs(ops, atom, x) && next == Float(r, ops.quantize(Finite(ops, x), r))
    case Int(r, _) =>
      exists x, min, max ::
        CountsAs(ops, atom, x) && SignedBounds(r, min, max) && next == Int(r, ops.toInt(Finite(ops, x), min, max))
    case Uint(r, _) =>
      exists x, max: nat ::
        CountsAs(ops, atom, x) && UnsignedBound(r, max) && next == Uint(r, ops.toUint(Finite(ops, x), max))
    case Color(r, space, _) => atom.Color? && next == Color(r, space, ops.convertColor(atom.rgba, r))
    case Bool(_) => false
    case Str(_) => false
  }

  ghost predicate IsTypedValue<F(!new)>(value: ControlValue<F>) {
    value.Float? || value.Int? || value.Uint? || value.Color?
  }

  ghost predicate HoldsTyped<F(!new)>(s: State<F>, node: ControlNode<F>) {
    node.id in s.values && IsTypedValue(s.values[node.id])
  }

  ghost predicate IsTyped<F(!new)>(node: ControlNode<F>) {
    node.kind.FloatKind? || node.kind.IntKind? || node.kind.UintKind? || node.kind.ColorKind?
  }

  lemma NumberOf<F(!new)>(ops: Numbers<F>, atom: ControlValue<F>)
    ensures AsFloat(ops, atom).Some? <==> IsNumber(atom)
    ensures AsFloat(ops, atom).Some? ==> CountsAs(ops, atom, AsFloat(ops, atom).value)
    ensures forall x :: CountsAs(ops, atom, x) ==> AsFloat(ops, atom) == Some(x)
  {
  }

  lemma Bounds(representation: string)
    ensures match IntRange(representation)
            case Some((min, max)) => SignedBounds(representation, min, max)
            case None => forall min, max :: !SignedBounds(representation, min, max)
    ensures match UintMax(representation)
            case Some(max) => UnsignedBound(representation, max)
            case None => forall max: nat :: !UnsignedBound(representation, max)
    ensures forall min, max :: SignedBounds(representation, min, max) ==> IntRange(representation) == Some((min, max))
    ensures forall max: nat :: UnsignedBound(representation, max) ==> UintMax(representation) == Some(max)
  {
  }

  lemma ConversionStores<F(!new)>(ops: Numbers<F>, held: ControlValue<F>, atom: ControlValue<F>, next: ControlValue<F>)
    requires IsTypedValue(held)
    ensures ConvertToStored(ops, atom, held) == Some(next) <==> Stores(ops, held, atom, next)
  {
    NumberOf(ops, atom);
    if held.Int? || held.Uint? {
      Bounds(held.representation);
    }
  }

  // ---- Number, integer and colour nodes -----------------------------------------------------------------

  /** An event at the hot input, other than a bang, is accepted exactly when its first atom can be stored.
      Then the node holds the number, or colour, of that atom in its own representation, and emits the
      very value it now holds, unless the message is a `set`. */
  lemma HotStoresAndAnswers<F(!new)>(ops: Numbers<F>, nodes: seq<ControlNode<F>>, s: State<F>, node: ControlNode<F>,
                                     message: ControlMessage<F>)
    requires Present(nodes, node) && IsTyped(node) && "in" in node.inputs && HoldsTyped(s, node)
    requires !IsBangMessage(message)
    ensures
      var held := s.values[node.id];
      var r := Direct(ops, nodes, s, Request(node.id, "in", message));
      && (r.Done? <==> message.atoms != [] && exists next :: Stores(ops, held, message.atoms[0], next))
      && (r.Done? ==>
            && node.id in r.state.values
            && Stores(ops, held, message.atoms[0], r.state.values[node.id])
            && LeavesWith(s, r.state, node.id, r.state.values[node.id])
            && (if message.selector == "set" then r.emitted == []
                else EmitsOnly(r.emitted, node.id, "value", r.state.values[node.id])))
  {
    var held := s.values[node.id];
    if message.atoms != [] {
      forall next ensures ConvertToStored(ops, message.atoms[0], held) == Some(next) <==>
                          Stores(ops, held, message.atoms[0], next) {
        ConversionStores(ops, held, message.atoms[0], next);
      }
    }
  }

  /** A bang is answered with the value held, and changes nothing. */
  lemma BangAnswersWithHeld<F(!new)>(ops: Numbers<F>, nodes: seq<ControlNode<F>>, s: State<F>, node: ControlNode<F>)
    requires Present(nodes, node) && IsTyped(node) && "in" in node.inputs && node.id in s.values
    ensures
      var r := Direct(ops, nodes, s, Request(node.id, "in", Message("bang", [])));
      r.Done? && r.state == s && EmitsOnly(r.emitted, node.id, "value", s.values[node.id])
  {
  }

  /** A bang that follows an answered event repeats the answer. */
  lemma BangRepeats<F(!new)>(ops: Numbers<F>, nodes: seq<ControlNode<F>>, s: State<F>, node: ControlNode<F>,
                             message: ControlMessage<F>)
    requires Present(nodes, node) && IsTyped(node) && "in" in node.inputs && HoldsTyped(s, node)
    requires message.selector != "set"
    ensures
      var r := Direct(ops, nodes, s, Request(node.id, "in", message));
      r.Done? ==> Direct(ops, nodes, r.state, Request(node.id, "in", Message("bang", []))) == r
  {
    var r := Direct(ops, nodes, s, Request(node.id, "in", message));
    if r.Done? {
      if !IsBangMessage(message) {
        HotStoresAndAnswers(ops, nodes, s, node, message);
      }
      BangAnswersWithHeld(ops, nodes, s, node);
      BangAnswersWithHeld(ops, nodes, r.state, node);
      var again := Direct(ops, nodes, r.state, Request(node.id, "in", Message("bang", [])));
      assert r.emitted[0] == again.emitted[0];
    }
  }

  /** The cold input stores what the hot input stores, and emits nothing; it takes no bang and no `set`. */
  lemma ColdStoresSilently<F(!new)>(ops: Numbers<F>, nodes: seq<ControlNode<F>>, s: State<F>, node: ControlNode<F>,
                                    message: ControlMessage<F>)
    requires Present(nodes, node) && IsTyped(node) && HoldsTyped(s, node)
    requires "in" in node.inputs && "cold" in node.inputs
    ensures
      var hot := Direct(ops, nodes, s, Request(node.id, "in", message));
      var cold := Direct(ops, nodes, s, Request(node.id, "cold", message));
      && (cold.Done? <==> hot.Done? && message.selector != "set" && !IsBangMessage(message))
      && (cold.Done? ==> cold == Done(hot.state, []))
  {
  }

  /** A `set` stores what the same atoms store under another selector, and emits nothing. */
  lemma SetStoresSilently<F(!new)>(ops: Numbers<F>, nodes: seq<ControlNode<F>>, s: State<F>, node: ControlNode<F>,
                                   message: ControlMessage<F>)
    requires Present(nodes, node) && IsTyped(node) && "in" in node.inputs && HoldsTyped(s, node)
    requires !IsBangMessage(message)
    ensures
      var loud := Direct(ops, nodes, s, Request(node.id, "in", message));
      var silent := Direct(ops, nodes, s, Request(node.id, "in", Message("set", message.atoms)));
      && (silent.Done? <==> loud.Done?)
      && (silent.Done? ==> silent == Done(loud.state, []))
  {
    assert FirstAtom(message) == FirstAtom(Message("set", message.atoms));
  }

  // ---- Operators -----------------------------------------------------------------------------------------------

  /** What an operator yields for two operands. */
  ghost function Yield<F(!new)>(ops: Numbers<F>, op: Operator, x: F, y: F): F {
    Finite(ops, if op.Div? && ops.equal(y, ops.zero) then ops.zero
                else if op.Sqrt? && ops.isNegative(x) then ops.zero
                else ops.apply(op, x, y))
  }

  /** The operand that a message brings: the number of its first atom, if it is finite. */
  ghost predicate Brings<F(!new)>(ops: Numbers<F>, message: ControlMessage<F>, x: F) {
    && message.atoms != []
    && exists y :: CountsAs(ops, message.atoms[0], y) && x == if message.atoms[0].Float? then Finite(ops, y) else y
  }

  lemma BroughtOperand<F(!new)>(ops: Numbers<F>, message: ControlMessage<F>)
    ensures NumericMessage(ops, message).Some? ==> Brings(ops, message, NumericMessage(ops, message).value)
    ensures forall x :: Brings(ops, message, x) ==> NumericMessage(ops, message) == Some(x)
    ensures NumericMessage(ops, message).Some? <==> message.atoms != [] && IsNumber(message.atoms[0])
  {
    if message.atoms != [] {
      NumberOf(ops, message.atoms[0]);
    }
  }

  /** The right operand: the number last brought to the right input, else the parameter `right`, else zero. */
  ghost function RightOf<F(!new)>(ops: Numbers<F>, s: State<F>, node: ControlNode<F>): F
    requires node.kind.OperatorKind? && RightsNumeric(s.operatorRight)
  {
    if node.id in s.operatorRight then Finite(ops, s.operatorRight[node.id].float)
    else if node.kind.op.Sqrt? then ops.zero
    else Finite(ops, if "right" in node.floats then node.floats["right"] else ops.zero)
  }

  /** An operator at whose hot input a number arrives holds and emits what it yields for that number and
      its right operand; a `set` only stores it. */
  lemma OperatorAnswers<F(!new)>(ops: Numbers<F>, nodes: seq<ControlNode<F>>, s: State<F>, node: ControlNode<F>,
                                 message: ControlMessage<F>)
    requires Present(nodes, node) && node.kind.OperatorKind? && "in" in node.inputs && RightsNumeric(s.operatorRight)
    requires !IsBangMessage(message)
    ensures
      var r := Direct(ops, nodes, s, Request(node.id, "in", message));
      && (r.Done? <==> exists x :: Brings(ops, message, x))
      && forall x :: Brings(ops, message, x) ==>
           var result := Float("f32", Yield(ops, node.kind.op, x, RightOf(ops, s, node)));
           && LeavesWith(s, r.state, node.id, result)
           && if message.selector == "set" then r.emitted == [] else EmitsOnly(r.emitted, node.id, "out", result)
  {
    BroughtOperand(ops, message);
  }

  /** The right input stores the number, and emits nothing; it takes no bang and no `set`. */
  lemma RightStoresSilently<F(!new)>(ops: Numbers<F>, nodes: seq<ControlNode<F>>, s: State<F>, node: ControlNode<F>,
                                     message: ControlMessage<F>)
    requires Present(nodes, node) && node.kind.OperatorKind? && "right" in node.inputs
    ensures
      var r := Direct(ops, nodes, s, Request(node.id, "right", message));
      && (r.Done? <==> message.selector != "set" && exists y :: Brings(ops, message, y))
      && forall y :: Brings(ops, message, y) && message.selector != "set" ==>
           r == Done(s.(operatorRight := s.operatorRight[node.id := Float("f32", y)]), [])
  {
    BroughtOperand(ops, message);
  }

  /** A number at the right input and then one at the hot input: the operator combines them, the hot one
      on the left. */
  lemma OperatorCombines<F(!new)>(ops: Numbers<F>, nodes: seq<ControlNode<F>>, s: State<F>, node: ControlNode<F>,
                                  first: ControlMessage<F>, second: ControlMessage<F>, y: F, x: F)
    requires Present(nodes, node) && node.kind.OperatorKind? && "in" in node.inputs && "right" in node.inputs
    requires RightsNumeric(s.operatorRight) && first.selector != "set" && second.selector != "set"
    requires Brings(ops, first, y) && Brings(ops, second, x)
    ensures
      var r := Direct(ops, nodes, s, Request(node.id, "right", first));
      && r.Done? && r.emitted == [] && r.state.values == s.values
      && var t := Direct(ops, nodes, r.state, Request(node.id, "in", second));
         var result := Float("f32", Yield(ops, node.kind.op, x, Finite(ops, y)));
         && t.Done? && LeavesWith(r.state, t.state, node.id, result) && EmitsOnly(t.emitted, node.id, "out", result)
  {
    RightStoresSilently(ops, nodes, s, node, first);
    var r := Direct(ops, nodes, s, Request(node.id, "right", first));
    OperatorAnswers(ops, nodes, r.state, node, second);
  }

  /** A bang makes an operator emit what it holds, or zero. */
  lemma BangOnOperator<F(!new)>(ops: Numbers<F>, nodes: seq<ControlNode<F>>, s: State<F>, node: ControlNode<F>)
    requires Present(nodes, node) && node.kind.OperatorKind? && "in" in node.inputs
    ensures
      var r := Direct(ops, nodes, s, Request(node.id, "in", Message("bang", [])));
      var held := if node.id in s.values then s.values[node.id] else Float("f32", ops.zero);
      r.Done? && r.state == s && EmitsOnly(r.emitted, node.id, "out", held)
  {
  }

  // ---- Messages, comments, panels and bangs ----------------------------------------------------------------

  /** The atoms of a `set`, printed and separated by spaces. */
  ghost function Printed<F(!new)>(ops: Numbers<F>, atoms: seq<ControlValue<F>>): string {
    Join(ShowAtoms(ops.text, atoms))
  }

  /** A message node is set silently; anything else makes it emit its text, read as a message, and
      changes nothing. */
  lemma MessageAnswers<F(!new)>(ops: Numbers<F>, nodes: seq<ControlNode<F>>, s: State<F>, node: ControlNode<F>,
                                message: ControlMessage<F>)
    requires Present(nodes, node) && node.kind.MessageKind? && "in" in node.inputs
    requires node.id in s.values && s.values[node.id].Str?
    ensures
      var r := Direct(ops, nodes, s, Request(node.id, "in", message));
      && r.Done?
      && if message.selector == "set"
         then LeavesWith(s, r.state, node.id, Str(Printed(ops, message.atoms))) && r.emitted == []
         else r.state == s && r.emitted == [Emission(node.id, "out", ParseText(ops.text, s.values[node.id].text))]
  {
  }

  /** A message node emits the text that it was last set to, read as a message. */
  lemma MessageRepeats<F(!new)>(ops: Numbers<F>, nodes: seq<ControlNode<F>>, s: State<F>, node: ControlNode<F>,
                                atoms: seq<ControlValue<F>>, trigger: ControlMessage<F>)
    requires Present(nodes, node) && node.kind.MessageKind? && "in" in node.inputs
    requires node.id in s.values && s.values[node.id].Str? && trigger.selector != "set"
    ensures
      var r := Direct(ops, nodes, s, Request(node.id, "in", Message("set", atoms)));
      && r.Done? && r.emitted == []
      && Direct(ops, nodes, r.state, Request(node.id, "in", trigger)) ==
         Done(r.state, [Emission(node.id, "out", ParseText(ops.text, Printed(ops, atoms)))])
  {
    MessageAnswers(ops, nodes, s, node, Message("set", atoms));
    var r := Direct(ops, nodes, s, Request(node.id, "in", Message("set", atoms)));
    MessageAnswers(ops, nodes, r.state, node, trigger);
  }

  /** Comments and panels take nothing but a `set` at their hot input, and never emit. */
  lemma CommentTakesSet<F(!new)>(ops: Numbers<F>, nodes: seq<ControlNode<F>>, s: State<F>, node: ControlNode<F>,
                                 message: ControlMessage<F>)
    requires Present(nodes, node) && (node.kind.CommentKind? || node.kind.PanelKind?) && "in" in node.inputs
    requires node.id in s.values
    ensures
      var r := Direct(ops, nodes, s, Request(node.id, "in", message));
      && (r.Done? <==> message.selector == "set")
      && (r.Done? ==> LeavesWith(s, r.state, node.id, Str(Printed(ops, message.atoms))) && r.emitted == [])
  {
  }

  /** At their cold input they take any message but a bang or a `set`: the text of a symbol as it is, and
      others as they are printed. Message nodes have no cold input. */
  lemma ColdTexts<F(!new)>(ops: Numbers<F>, nodes: seq<ControlNode<F>>, s: State<F>, node: ControlNode<F>,
                           message: ControlMessage<F>)
    requires Present(nodes, node) && (node.kind.MessageKind? || node.kind.CommentKind? || node.kind.PanelKind?)
    requires "cold" in node.inputs && node.id in s.values && s.values[node.id].Str?
    ensures
      var r := Direct(ops, nodes, s, Request(node.id, "cold", message));
      && (r.Done? <==> !node.kind.MessageKind? && message.selector != "set" && !IsBangMessage(message))
      && (r.Done? ==>
            && r.emitted == []
            && LeavesWith(s, r.state, node.id,
                          Str(if message.selector == "symbol" && message.atoms != [] && message.atoms[0].Str?
                              then message.atoms[0].text else ToText(ops.text, message))))
  {
  }

  /** A bang node answers everything at its input with a bang. */
  lemma BangNodeAnswers<F(!new)>(ops: Numbers<F>, nodes: seq<ControlNode<F>>, s: State<F>, node: ControlNode<F>,
                                 port: string, message: ControlMessage<F>)
    requires Present(nodes, node) && node.kind.BangKind?
    ensures Direct(ops, nodes, s, Request(node.id, port, message)) ==
            if port == "in" then Done(s, [Emission(node.id, "out", Message("bang", []))]) else Failed
  {
  }

  /** What is rejected whatever the message: events at missing or unknown nodes, at ports a node does not
      have, at ports with no meaning, and at nodes that should hold a value and do not. */
  lemma Rejected<F(!new)>(ops: Numbers<F>, nodes: seq<ControlNode<F>>, s: State<F>, id: string, port: string,
                          message: ControlMessage<F>)
    ensures
      var found := FindNode(nodes, id);
      (|| found.None? || found.value.kind.OtherKind?
       || (!found.value.kind.BangKind?
           && (|| port !in found.value.inputs
               || (found.value.kind.OperatorKind? && port != "in" && port != "right")
               || (!found.value.kind.OperatorKind? && ((port != "in" && port != "cold") || id !in s.values))))) ==>
        Direct(ops, nodes, s, Request(id, port, message)).Failed?
  {
  }

  // ---- Truth values ----------------------------------------------------------------------------------------

  /** The text is the word, in letters of either case and with any space around it. */
  ghost predicate Says(text: string, word: string) {
    exists core :: Strips(text, core) && SaysWord(core, word)
  }

  lemma TrimmedSays(text: string, word: string)
    requires forall i :: 0 <= i < |word| ==> !('A' <= word[i] <= 'Z')
    ensures LowerAll(Trim(text)) == word <==> Says(text, word)
  {
    TrimStrips(text);
    LowerSays(Trim(text), word);
    if Says(text, word) {
      var core :| Strips(text, core) && SaysWord(core, word);
      StripIsTrim(text, core);
    }
  }

  /** The atom stands for the truth value. */
  ghost predicate StandsForTruth<F(!new)>(ops: Numbers<F>, atom: ControlValue<F>, b: bool) {
    match atom
    case Bool(c) => b == c
    case Int(_, n) => n == if b then 1 else 0
    case Uint(_, u) => u == if b then 1 else 0
    case Float(_, x) => if b then !ops.equal(x, ops.zero) && ops.equal(x, ops.one) else ops.equal(x, ops.zero)
    case Str(text) =>
      if b then Says(text, "1") || Says(text, "on") || Says(text, "true") || Says(text, "bang")
      else Says(text, "0") || Says(text, "off") || Says(text, "false")
    case Color(_, _, _) => false
  }

  /** The message asks for the truth value: by its selector, or by its first atom. */
  ghost predicate AsksForTruth<F(!new)>(ops: Numbers<F>, message: ControlMessage<F>, b: bool) {
    var selector := message.selector;
    || (b && IsBangMessage(message))
    || (b && (selector == "on" || selector == "true" || selector == "1"))
    || (!b && (selector == "off" || selector == "false" || selector == "0"))
    || (selector in ["set", "float", "int", "uint", "bool", "symbol"] && message.atoms != []
        && StandsForTruth(ops, message.atoms[0], b))
  }

  lemma ToggleWords(text: string)
    ensures var word := LowerAll(Trim(text));
            && (ToggleWord(word) == Some(true) <==>
                Says(text, "1") || Says(text, "on") || Says(text, "true") || Says(text, "bang"))
            && (ToggleWord(word) == Some(false) <==> Says(text, "0") || Says(text, "off") || Says(text, "false"))
  {
    TrimmedSays(text, "1");
    TrimmedSays(text, "on");
    TrimmedSays(text, "true");
    TrimmedSays(text, "bang");
    TrimmedSays(text, "0");
    TrimmedSays(text, "off");
    TrimmedSays(text, "false");
  }

  lemma AtomTruth<F(!new)>(ops: Numbers<F>, selector: string, atom: ControlValue<F>, b: bool)
    requires selector in ["set", "float", "int", "uint", "bool", "symbol"]
    ensures CoerceToggle(ops, Message(selector, [atom])) == Some(b) <==> StandsForTruth(ops, atom, b)
  {
    if atom.Str? {
      ToggleWords(atom.text);
    }
  }

  /** A stored truth value takes the truth value that a message asks for, and no other message. */
  lemma TruthIsStored<F(!new)>(ops: Numbers<F>, message: ControlMessage<F>, held: bool, b: bool)
    ensures ValueFromMessage(ops, message, Bool(held)) == Some(Bool(b)) <==> AsksForTruth(ops, message, b)
  {
    if message.atoms != [] && message.selector in ["set", "float", "int", "uint", "bool", "symbol"] {
      AtomTruth(ops, message.selector, message.atoms[0], b);
    }
  }

  // ---- Initial values -------------------------------------------------------------------------------------

  /** The value a node starts with. */
  ghost function StartsWith<F(!new)>(ops: Numbers<F>, node: ControlNode<F>): Option<ControlValue<F>> {
    var named := (key: string, default: string) => if key in node.strings then node.strings[key] else default;
    match node.kind
    case FloatKind =>
      Some(Float(named("representation", "f32"), if "value" in node.floats then node.floats["value"] else ops.zero))
    case IntKind => Some(Int(named("representation", "i32"), if node.intParam.Some? then node.intParam.value else 0))
    case UintKind =>
      Some(Uint(named("representation", "u32"), if node.uintParam.Some? then node.uintParam.value else 0))
    case ColorKind =>
      Some(Color(named("representation", "rgba32f"), named("colorSpace", "linear"),
                 if node.rgbaParam.Some? then node.rgbaParam.value else ops.white))
    case MessageKind => Some(Str(named("value", "")))
    case CommentKind => Some(Str(named("text", "")))
    case PanelKind => Some(Str(named("color", "transparent")))
    case OperatorKind(_) => Some(Float("f32", ops.zero))
    case BangKind => None
    case OtherKind(_) => None
  }

  lemma {:induction false} StartValues<F(!new)>(ops: Numbers<F>, nodes: seq<ControlNode<F>>, i: nat)
    requires Distinct(NodeIds(nodes)) && i < |nodes|
    ensures
      var id, values := nodes[i].id, DefaultValues(ops, nodes);
      && (id in values <==> StartsWith(ops, nodes[i]).Some?)
      && (id in values ==> values[id] == StartsWith(ops, nodes[i]).value)
    decreases |nodes|
  {
    var n := |nodes| - 1;
    assert NodeIds(nodes[..n]) == NodeIds(nodes)[..n];
    if i < n {
      StartValues(ops, nodes[..n], i);
      DistinctIds(nodes, i, n);
    } else {
      NotBefore(ops, nodes);
    }
  }

  lemma {:induction false} StartRights<F(!new)>(ops: Numbers<F>, nodes: seq<ControlNode<F>>, i: nat)
    requires Distinct(NodeIds(nodes)) && i < |nodes|
    ensures
      var id, rights := nodes[i].id, RightDefaults(ops, nodes);
      && (id in rights <==> nodes[i].kind.OperatorKind? && !nodes[i].kind.op.Sqrt?)
      && (id in rights ==>
            rights[id] == Float("f32", if "right" in nodes[i].floats then nodes[i].floats["right"] else ops.zero))
    decreases |nodes|
  {
    var n := |nodes| - 1;
    assert NodeIds(nodes[..n]) == NodeIds(nodes)[..n];
    if i < n {
      StartRights(ops, nodes[..n], i);
      DistinctIds(nodes, i, n);
    } else {
      NotBefore(ops, nodes);
    }
  }

  lemma NotBefore<F(!new)>(ops: Numbers<F>, nodes: seq<ControlNode<F>>)
    requires Distinct(NodeIds(nodes)) && nodes != []
    ensures var init, id := nodes[..|nodes| - 1], nodes[|nodes| - 1].id;
            id !in DefaultValues(ops, init) && id !in RightDefaults(ops, init)
  {
    var init, id := nodes[..|nodes| - 1], nodes[|nodes| - 1].id;
    forall j | 0 <= j < |init| ensures init[j].id != id {
      DistinctIds(nodes, j, |nodes| - 1);
    }
    OnlyListed(ops, init, id);
  }

  lemma {:induction false} OnlyListed<F(!new)>(ops: Numbers<F>, nodes: seq<ControlNode<F>>, id: string)
    requires forall j :: 0 <= j < |nodes| ==> nodes[j].id != id
    ensures id !in DefaultValues(ops, nodes) && id !in RightDefaults(ops, nodes)
    decreases |nodes|
  {
    if nodes != [] {
      OnlyListed(ops, nodes[..|nodes| - 1], id);
    }
  }

  /** Every node starts with its value and its right operand, and no channel holds a message. */
  lemma InitialState<F(!new)>(ops: Numbers<F>, graph: ControlGraph<F>, i: nat)
    requires Distinct(NodeIds(graph.nodes)) && i < |graph.nodes|
    ensures
      var s, node := Initial(ops, graph), graph.nodes[i];
      && s.channels == map[]
      && (node.id in s.values <==> StartsWith(ops, node).Some?)
      && (node.id in s.values ==> s.values[node.id] == StartsWith(ops, node).value)
      && (node.id in s.operatorRight <==> node.kind.OperatorKind? && !node.kind.op.Sqrt?)
      && (node.id in s.operatorRight ==>
            s.operatorRight[node.id] == Float("f32", if "right" in node.floats then node.floats["right"] else ops.zero))
  {
    StartValues(ops, graph.nodes, i);
    StartRights(ops, graph.nodes, i);
  }

  // ---- Channels --------------------------------------------------------------------------------------------

  /** The kind of data that a message brings: that of its first atom. */
  ghost predicate BringsKind<F(!new)>(message: ControlMessage<F>, kind: DataKind) {
    if IsBangMessage(message) then kind == BangData
    else if message.atoms == [] then kind == MessageData
    else
      match message.atoms[0]
      case Float(_, _) => kind == FloatData
      case Int(_, _) => kind == IntData
      case Uint(_, _) => kind == UintData
      case Bool(_) => kind == BoolData
      case Str(_) => kind == StringData
      case Color(_, _, _) => kind == ColorData
  }

  /** Numbers and operators take numbers and truth values, colours take colours, comments and panels take
      texts and messages without atoms, and message and bang nodes take everything. */
  ghost predicate Takes(kind: ControlKind, data: DataKind) {
    if kind.FloatKind? || kind.IntKind? || kind.UintKind? || kind.OperatorKind?
    then data in {FloatData, IntData, UintData, BoolData}
    else if kind.ColorKind? then data == ColorData
    else if kind.CommentKind? || kind.PanelKind? then data in {StringData, MessageData}
    else kind.MessageKind? || kind.BangKind?
  }

  /** The node has a channel name of this sort, apart from spaces around it. */
  ghost predicate Names<F(!new)>(node: ControlNode<F>, key: string, name: string) {
    key in node.strings && Trim(node.strings[key]) == name && name != ""
  }

  /** A message sent on a channel reaches the node. */
  ghost predicate Reaches<F(!new)>(node: ControlNode<F>, sourceId: string, name: string, message: ControlMessage<F>) {
    && node.id != sourceId && Names(node, "receiveName", name)
    && forall kind :: BringsKind(message, kind) ==> Takes(node.kind, kind)
  }

  lemma ReceiversAre<F(!new)>(node: ControlNode<F>, sourceId: string, name: string, message: ControlMessage<F>)
    ensures BringsKind(message, DataKindOf(message))
    ensures Receives(node, sourceId, name, DataKindOf(message)) <==> Reaches(node, sourceId, name, message)
  {
    var kind := DataKindOf(message);
    assert forall other :: BringsKind(message, other) ==> other == kind;
    assert Accepts(node, kind) <==> Takes(node.kind, kind);
  }

  /** What the first k nodes emit when the message reaches them, each from the state before. */
  ghost function EmittedByReceivers<F(!new)>(ops: Numbers<F>, nodes: seq<ControlNode<F>>, k: nat, s: State<F>,
                                             name: string, message: ControlMessage<F>,
                                             sourceId: string): seq<Emission<F>>
    requires k <= |nodes|
  {
    if k == 0 then [] else
      var node := nodes[k - 1];
      var r := Direct(ops, nodes, s, Request(node.id, "in", message));
      EmittedByReceivers(ops, nodes, k - 1, s, name, message, sourceId)
      + if Reaches(node, sourceId, name, message) && r.Done? then r.emitted else []
  }

  lemma ReceiveIs<F(!new)>(ops: Numbers<F>, nodes: seq<ControlNode<F>>, s: State<F>, node: ControlNode<F>, name: string,
                           message: ControlMessage<F>, sourceId: string)
    ensures
      var r := Direct(ops, nodes, s, Request(node.id, "in", message));
      Receive(ops, nodes, s, node, name, message, sourceId) ==
      if Reaches(node, sourceId, name, message) && r.Done? then (r.state, r.emitted) else (s, [])
  {
    ReceiversAre(node, sourceId, name, message);
  }

  /** A receiver emits what it would have emitted from any state with the same entries for it. */
  lemma ReceiverEmits<F(!new)>(ops: Numbers<F>, nodes: seq<ControlNode<F>>, s: State<F>, before: State<F>,
                               node: ControlNode<F>, name: string, message: ControlMessage<F>, sourceId: string)
    requires SameAt(s, before, node.id)
    ensures
      var r := Direct(ops, nodes, s, Request(node.id, "in", message));
      Receive(ops, nodes, before, node, name, message, sourceId).1 ==
      if Reaches(node, sourceId, name, message) && r.Done? then r.emitted else []
  {
    DirectReadsItsNode(ops, nodes, s, before, Request(node.id, "in", message));
    ReceiveIs(ops, nodes, before, node, name, message, sourceId);
  }

  lemma {:induction false} BroadcastEmits<F(!new)>(ops: Numbers<F>, nodes: seq<ControlNode<F>>, k: nat, s: State<F>,
                                                   name: string, message: ControlMessage<F>, sourceId: string)
    requires Distinct(NodeIds(nodes)) && k <= |nodes|
    ensures Broadcast(ops, nodes, k, s, name, message, sourceId).1 ==
            EmittedByReceivers(ops, nodes, k, s, name, message, sourceId)
    decreases k
  {
    if k > 0 {
      var j := k - 1;
      BroadcastEmits(ops, nodes, j, s, name, message, sourceId);
      UntouchedSoFar(ops, nodes, j, s, name, message, sourceId);
      var before := Broadcast(ops, nodes, j, s, name, message, sourceId);
      ReceiverEmits(ops, nodes, s, before.0, nodes[j], name, message, sourceId);
      NextBroadcast(ops, nodes, j, s, name, message, sourceId);
      NextEmitted(ops, nodes, j, s, name, message, sourceId);
    }
  }

  lemma NextBroadcast<F(!new)>(ops: Numbers<F>, nodes: seq<ControlNode<F>>, j: nat, s: State<F>, name: string,
                               message: ControlMessage<F>, sourceId: string)
    requires j < |nodes|
    ensures
      var before := Broadcast(ops, nodes, j, s, name, message, sourceId);
      Broadcast(ops, nodes, j + 1, s, name, message, sourceId).1 ==
      before.1 + Receive(ops, nodes, before.0, nodes[j], name, message, sourceId).1
  {
  }

  lemma NextEmitted<F(!new)>(ops: Numbers<F>, nodes: seq<ControlNode<F>>, j: nat, s: State<F>, name: string,
                             message: ControlMessage<F>, sourceId: string)
    requires j < |nodes|
    ensures
      var r := Direct(ops, nodes, s, Request(nodes[j].id, "in", message));
      EmittedByReceivers(ops, nodes, j + 1, s, name, message, sourceId) ==
      EmittedByReceivers(ops, nodes, j, s, name, message, sourceId)
      + if Reaches(nodes[j], sourceId, name, message) && r.Done? then r.emitted else []
  {
  }

  /** A broadcast that has reached the first k nodes has not touched the next. */
  lemma UntouchedSoFar<F(!new)>(ops: Numbers<F>, nodes: seq<ControlNode<F>>, k: nat, s: State<F>, name: string,
                                message: ControlMessage<F>, sourceId: string)
    requires Distinct(NodeIds(nodes)) && k < |nodes|
    ensures SameAt(s, Broadcast(ops, nodes, k, s, name, message, sourceId).0, nodes[k].id)
  {
    var update := Receiving(ops, nodes, name, message, sourceId);
    ReceivingIsLocal(ops, nodes, name, message, sourceId);
    BroadcastIsEach(ops, nodes, k, s, name, message, sourceId);
    EachIsSimultaneous(update, nodes, k, s, k);
  }

  /** An emission of a node with a send name is kept in the channel of that name and kind, and reaches, in
      the order of the nodes, exactly the other nodes with that receive name that take the kind; one that
      rejects the message is left alone. Other emissions go to no channel. */
  lemma PublishReaches<F(!new)>(ops: Numbers<F>, nodes: seq<ControlNode<F>>, s: State<F>, e: Emission<F>, name: string)
    requires Distinct(NodeIds(nodes)) && FindNode(nodes, e.nodeId).Some?
    requires Names(FindNode(nodes, e.nodeId).value, "sendName", name)
    ensures
      var kind := DataKindOf(e.message);
      var kept := s.(channels := s.channels[ChannelKey(kind, name) := e.message]);
      var r := Publish(ops, nodes, s, e);
      && BringsKind(e.message, kind)
      && r.0.channels == kept.channels
      && r.1 == EmittedByReceivers(ops, nodes, |nodes|, kept, name, e.message, e.nodeId)
      && forall node :: node in nodes ==>
           var direct := Direct(ops, nodes, kept, Request(node.id, "in", e.message));
           SameAt(if Reaches(node, e.nodeId, name, e.message) && direct.Done? then direct.state else s, r.0, node.id)
  {
    var kind := DataKindOf(e.message);
    var kept := s.(channels := s.channels[ChannelKey(kind, name) := e.message]);
    BroadcastEmits(ops, nodes, |nodes|, kept, name, e.message, e.nodeId);
    BroadcastIsSimultaneous(ops, nodes, kept, name, e.message, e.nodeId);
    forall node | node in nodes
      ensures var direct := Direct(ops, nodes, kept, Request(node.id, "in", e.message));
              SameAt(if Reaches(node, e.nodeId, name, e.message) && direct.Done? then direct.state else s,
                     Publish(ops, nodes, s, e).0, node.id)
    {
      ReceiveIs(ops, nodes, kept, node, name, e.message, e.nodeId);
    }
    ReceiversAre(FindNode(nodes, e.nodeId).value, e.nodeId, name, e.message);
  }

  lemma NotPublished<F(!new)>(ops: Numbers<F>, nodes: seq<ControlNode<F>>, s: State<F>, e: Emission<F>)
    requires FindNode(nodes, e.nodeId).Some? ==>
               forall name :: !Names(FindNode(nodes, e.nodeId).value, "sendName", name)
    ensures Publish(ops, nodes, s, e) == (s, [])
  {
    var found := FindNode(nodes, e.nodeId);
    if found.Some? && "sendName" in found.value.strings {
      assert !Names(found.value, "sendName", Trim(found.value.strings["sendName"]));
    }
  }

  // ---- Edges -------------------------------------------------------------------------------------------------

  /** The events that an emission causes along the first k edges: one for each edge that leaves its port
      for a node that takes control events, in the order of the edges. */
  ghost function Requests<F(!new)>(graph: ControlGraph<F>, e: Emission<F>, k: nat): seq<Request<F>>
    requires k <= |graph.edges|
  {
    if k == 0 then [] else
      var edge := graph.edges[k - 1];
      var target := FindNode(graph.nodes, edge.target.nodeId);
      Requests(graph, e, k - 1)
      + if edge.source.nodeId == e.nodeId && edge.source.portId == e.portId && target.Some?
           && !target.value.kind.OtherKind?
        then [Request(edge.target.nodeId, edge.target.portId, e.message)] else []
  }

  /** Events one after the other; the first that is rejected fails all of them. */
  ghost function InTurn<F(!new)>(ops: Numbers<F>, nodes: seq<ControlNode<F>>, s: State<F>,
                                 requests: seq<Request<F>>): Outcome<F> {
    if requests == [] then Done(s, []) else
      var n := |requests| - 1;
      match InTurn(ops, nodes, s, requests[..n])
      case Failed => Failed
      case Done(before, emitted) =>
        match Direct(ops, nodes, before, requests[n])
        case Failed => Failed
        case Done(after, more) => Done(after, emitted + more)
  }

  lemma {:induction false} EdgesInTurn<F(!new)>(ops: Numbers<F>, graph: ControlGraph<F>, k: nat, s: State<F>,
                                                e: Emission<F>)
    requires k <= |graph.edges|
    ensures AlongEdges(ops, graph, k, s, e) == InTurn(ops, graph.nodes, s, Requests(graph, e, k))
    decreases k
  {
    if k > 0 {
      var j := k - 1;
      EdgesInTurn(ops, graph, j, s, e);
      var so := AlongEdges(ops, graph, j, s, e);
      if so.Done? {
        NextEdge(ops, graph, j, s, e, so.state, so.emitted);
      }
      NextRequest(graph, e, j);
      var before, all := Requests(graph, e, j), Requests(graph, e, k);
      if Target(graph, graph.edges[j], e).Some? {
        assert all[..|all| - 1] == before;
      } else {
        assert all == before;
      }
    }
  }

  lemma NextRequest<F(!new)>(graph: ControlGraph<F>, e: Emission<F>, j: nat)
    requires j < |graph.edges|
    ensures
      var target := Target(graph, graph.edges[j], e);
      Requests(graph, e, j + 1) == Requests(graph, e, j) +
        if target.Some? then [Request(target.value.id, graph.edges[j].target.portId, e.message)] else []
  {
  }

  /** An emission is delivered to its channel first and then along the edges, and what the channel causes
      is listed first. */
  lemma DeliveredInOrder<F(!new)>(ops: Numbers<F>, graph: ControlGraph<F>, s: State<F>, e: Emission<F>)
    ensures
      var published := Publish(ops, graph.nodes, s, e);
      var along := InTurn(ops, graph.nodes, published.0, Requests(graph, e, |graph.edges|));
      Deliver(ops, graph, s, e) == if along.Failed? then Failed else Done(along.state, published.1 + along.emitted)
  {
    EdgesInTurn(ops, graph, |graph.edges|, Publish(ops, graph.nodes, s, e).0, e);
  }

  /** The number of deliveries that an event may cause: twice the edges, and no less than thirty-two. */
  lemma LimitByEdges(edges: nat)
    ensures Limit(edges) >= 2 * edges && Limit(edges) >= 32 && (Limit(edges) == 2 * edges || Limit(edges) == 32)
  {
  }
}
