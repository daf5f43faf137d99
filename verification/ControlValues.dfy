/** How control values are converted, and the specification of a single control event. */
module ControlValues {
  import opened Basics
  import opened ExpansionEdges
  import opened ControlText

  datatype Operator = Add | Sub | Mul | Div | Pow | Min | Max | Sqrt

  /** The object kinds that the control machine knows. */
  datatype ControlKind =
    | FloatKind | IntKind | UintKind | ColorKind
    | MessageKind | CommentKind | PanelKind | BangKind
    | OperatorKind(op: Operator)
    | OtherKind(name: string)

  /** Floating-point arithmetic and conversion, of any kind. */
  datatype Numbers<!F> = Numbers(
    text: FloatText<F>,
    zero: F,
    one: F,
    white: Rgba<F>,
    fromInt: int -> F,
    isFinite: F -> bool,
    equal: (F, F) -> bool,
    quantize: (F, string) -> F,
    toInt: (F, int, int) -> int,
    toUint: (F, nat) -> nat,
    convertColor: (Rgba<F>, string) -> Rgba<F>,
    isNegative: F -> bool,
    apply: (Operator, F, F) -> F)

  /** A node, with its parameters as they read as strings, numbers and colours. */
  datatype ControlNode<F> = ControlNode(
    id: string,
    kind: ControlKind,
    inputs: set<string>,
    strings: map<string, string>,
    floats: map<string, F>,
    intParam: Option<int>,
    uintParam: Option<nat>,
    rgbaParam: Option<Rgba<F>>)

  datatype Wire = Wire(source: PortRef, target: PortRef)

  datatype ControlGraph<F> = ControlGraph(nodes: seq<ControlNode<F>>, edges: seq<Wire>)

  datatype DataKind = BangData | MessageData | FloatData | IntData | UintData | BoolData | StringData | ColorData

  datatype ChannelKey = ChannelKey(kind: DataKind, name: string)

  datatype State<F> = State(
    values: map<string, ControlValue<F>>,
    channels: map<ChannelKey, ControlMessage<F>>,
    operatorRight: map<string, ControlValue<F>>)

  datatype Request<F> = Request(nodeId: string, portId: string, message: ControlMessage<F>)

  datatype Emission<F> = Emission(nodeId: string, portId: string, message: ControlMessage<F>)

  datatype Outcome<F> = Done(state: State<F>, emitted: seq<Emission<F>>) | Failed

  // ---- Conversion --------------------------------------------------------------------------------

  function Sanitize<F>(ops: Numbers<F>, x: F): F {
    if ops.isFinite(x) then x else ops.zero
  }

  function AsFloat<F>(ops: Numbers<F>, value: ControlValue<F>): Option<F> {
    match value
    case Float(_, x) => Some(x)
    case Int(_, n) => Some(ops.fromInt(n))
    case Uint(_, u) => Some(ops.fromInt(u))
    case Bool(b) => Some(if b then ops.one else ops.zero)
    case _ => None
  }

  function IntRange(representation: string): Option<(int, int)> {
    if representation == "i64" then Some((MIN_I64, MAX_I64))
    else if representation == "i32" then Some((-0x8000_0000, 0x7FFF_FFFF))
    else if representation == "i16" then Some((-0x8000, 0x7FFF))
    else if representation == "i8" then Some((-0x80, 0x7F))
    else None
  }

  function UintMax(representation: string): Option<nat> {
    if representation == "u64" then Some(MAX_U64)
    else if representation == "u32" then Some(0xFFFF_FFFF)
    else if representation == "u16" then Some(0xFFFF)
    else if representation == "u8" then Some(0xFF)
    else None
  }

  /** A value converted to the type of the stored one, if it can be. */
  function ConvertToStored<F>(ops: Numbers<F>, value: ControlValue<F>,
                              stored: ControlValue<F>): Option<ControlValue<F>> {
    match stored
    case Float(r, _) =>
      (match AsFloat(ops, value)
       case Some(x) => Some(Float(r, ops.quantize(Sanitize(ops, x), r)))
       case None => None)
    case Int(r, _) =>
      (match AsFloat(ops, value)
       case Some(x) =>
         (match IntRange(r)
          case Some((min, max)) => Some(Int(r, ops.toInt(Sanitize(ops, x), min, max)))
          case None => None)
       case None => None)
    case Uint(r, _) =>
      (match AsFloat(ops, value)
       case Some(x) =>
         (match UintMax(r)
          case Some(max) => Some(Uint(r, ops.toUint(Sanitize(ops, x), max)))
          case None => None)
       case None => None)
    case Color(r, space, _) => if value.Color? then Some(Color(r, space, ops.convertColor(value.rgba, r))) else None
    case _ => None
  }

  predicate IsBang<F>(message: ControlMessage<F>) {
    message.selector == "bang" && message.atoms == []
  }

  function FirstAtom<F>(message: ControlMessage<F>): Option<ControlValue<F>> {
    if message.atoms == [] then None else Some(message.atoms[0])
  }

  function SetText<F>(ops: Numbers<F>, message: ControlMessage<F>): string {
    Join(ShowAtoms(ops.text, message.atoms))
  }

  function ToggleWord(word: string): Option<bool> {
    if word in ["0", "off", "false"] then Some(false)
    else if word in ["1", "on", "true"] then Some(true)
    else if word == "bang" then Some(true)
    else None
  }

  /** The truth value a message stands for, starting from false. */
  function CoerceToggle<F>(ops: Numbers<F>, message: ControlMessage<F>): Option<bool> {
    if IsBang(message) then Some(true)
    else if message.selector in ["on", "true", "1"] then Some(true)
    else if message.selector in ["off", "false", "0"] then Some(false)
    else if message.selector in ["set", "float", "int", "uint", "bool", "symbol"] && message.atoms != [] then
      match message.atoms[0]
      case Bool(b) => Some(b)
      case Int(_, n) => if n == 0 then Some(false) else if n == 1 then Some(true) else None
      case Uint(_, u) => if u == 0 then Some(false) else if u == 1 then Some(true) else None
      case Float(_, x) =>
        if ops.equal(x, ops.zero) then Some(false) else if ops.equal(x, ops.one) then Some(true) else None
      case Str(text) => ToggleWord(LowerAll(Trim(text)))
      case Color(_, _, _) => None
    else None
  }

  /** The stored value that a message asks for. */
  function ValueFromMessage<F>(ops: Numbers<F>, message: ControlMessage<F>,
                               stored: ControlValue<F>): Option<ControlValue<F>> {
    match stored
    case Bool(_) =>
      (match CoerceToggle(ops, message)
       case Some(b) => Some(Bool(b))
       case None => None)
    case Str(_) =>
      if message.selector == "set" then Some(Str(SetText(ops, message)))
      else if message.selector == "symbol" && message.atoms != [] && message.atoms[0].Str? then
        Some(Str(message.atoms[0].text))
      else Some(Str(ToText(ops.text, message)))
    case _ =>
      match FirstAtom(message)
      case Some(value) => ConvertToStored(ops, value, stored)
      case None => None
  }

  function DataKindOf<F>(message: ControlMessage<F>): DataKind {
    if IsBang(message) then BangData
    else if message.atoms == [] then MessageData
    else
      match message.atoms[0]
      case Float(_, _) => FloatData
      case Int(_, _) => IntData
      case Uint(_, _) => UintData
      case Bool(_) => BoolData
      case Str(_) => StringData
      case Color(_, _, _) => ColorData
  }

  predicate IsNumericData(kind: DataKind) {
    kind.FloatData? || kind.IntData? || kind.UintData? || kind.BoolData?
  }

  predicate Accepts<F>(node: ControlNode<F>, kind: DataKind) {
    match node.kind
    case FloatKind => IsNumericData(kind)
    case IntKind => IsNumericData(kind)
    case UintKind => IsNumericData(kind)
    case OperatorKind(_) => IsNumericData(kind)
    case ColorKind => kind.ColorData?
    case CommentKind => kind.StringData? || kind.MessageData?
    case PanelKind => kind.StringData? || kind.MessageData?
    case MessageKind => true
    case BangKind => true
    case OtherKind(_) => false
  }

  // ---- Initial values ------------------------------------------------------------------------------

  function StringOr<F>(node: ControlNode<F>, key: string, default: string): string {
    if key in node.strings then node.strings[key] else default
  }

  function FloatOr<F>(node: ControlNode<F>, key: string, default: F): F {
    if key in node.floats then node.floats[key] else default
  }

  function DefaultValue<F>(ops: Numbers<F>, node: ControlNode<F>): Option<ControlValue<F>> {
    match node.kind
    case FloatKind => Some(Float(StringOr(node, "representation", "f32"), FloatOr(node, "value", ops.zero)))
    case IntKind =>
      Some(Int(StringOr(node, "representation", "i32"), if node.intParam.Some? then node.intParam.value else 0))
    case UintKind =>
      Some(Uint(StringOr(node, "representation", "u32"), if node.uintParam.Some? then node.uintParam.value else 0))
    case ColorKind =>
      Some(Color(StringOr(node, "representation", "rgba32f"), StringOr(node, "colorSpace", "linear"),
                 if node.rgbaParam.Some? then node.rgbaParam.value else ops.white))
    case MessageKind => Some(Str(StringOr(node, "value", "")))
    case CommentKind => Some(Str(StringOr(node, "text", "")))
    case PanelKind => Some(Str(StringOr(node, "color", "transparent")))
    case OperatorKind(_) => Some(FloatValue(ops.zero))
    case BangKind => None
    case OtherKind(_) => None
  }

  function RightDefault<F>(ops: Numbers<F>, node: ControlNode<F>): Option<ControlValue<F>> {
    if node.kind.OperatorKind? && !node.kind.op.Sqrt? then Some(FloatValue(FloatOr(node, "right", ops.zero))) else None
  }

  function DefaultValues<F>(ops: Numbers<F>, nodes: seq<ControlNode<F>>): map<string, ControlValue<F>> {
    if nodes == [] then map[] else
      var n := |nodes| - 1;
      var before := DefaultValues(ops, nodes[..n]);
      match DefaultValue(ops, nodes[n])
      case Some(value) => before[nodes[n].id := value]
      case None => before
  }

  function RightDefaults<F>(ops: Numbers<F>, nodes: seq<ControlNode<F>>): map<string, ControlValue<F>> {
    if nodes == [] then map[] else
      var n := |nodes| - 1;
      var before := RightDefaults(ops, nodes[..n]);
      match RightDefault(ops, nodes[n])
      case Some(value) => before[nodes[n].id := value]
      case None => before
  }

  function Initial<F>(ops: Numbers<F>, graph: ControlGraph<F>): State<F> {
    State(DefaultValues(ops, graph.nodes), map[], RightDefaults(ops, graph.nodes))
  }

  // ---- One event -------------------------------------------------------------------------------------

  function FindNode<F>(nodes: seq<ControlNode<F>>, id: string): (r: Option<ControlNode<F>>)
    ensures r.Some? ==> r.value in nodes && r.value.id == id
  {
    if nodes == [] then None else if nodes[0].id == id then Some(nodes[0]) else FindNode(nodes[1..], id)
  }

  predicate Supports(kind: ControlKind) {
    !kind.OtherKind?
  }

  function OperatorFloat<F>(ops: Numbers<F>, value: ControlValue<F>): Option<F> {
    match value
    case Float(_, x) => Some(Sanitize(ops, x))
    case _ => AsFloat(ops, value)
  }

  function NumericMessage<F>(ops: Numbers<F>, message: ControlMessage<F>): Option<F> {
    match FirstAtom(message)
    case Some(value) => OperatorFloat(ops, value)
    case None => None
  }

  function RightOperand<F>(ops: Numbers<F>, s: State<F>, node: ControlNode<F>): F {
    var stored := if node.id in s.operatorRight then OperatorFloat(ops, s.operatorRight[node.id]) else None;
    if stored.Some? then stored.value else
      match RightDefault(ops, node)
      case Some(value) => (match OperatorFloat(ops, value) case Some(x) => x case None => ops.zero)
      case None => ops.zero
  }

  /** What an operator yields: division by zero and roots of negative numbers give zero. */
  function Combine<F>(ops: Numbers<F>, op: Operator, x: F, y: F): F {
    if op.Div? && ops.equal(y, ops.zero) then ops.zero
    else if op.Sqrt? && ops.isNegative(x) then ops.zero
    else ops.apply(op, x, y)
  }

  function Emit<F>(node: ControlNode<F>, port: string, message: ControlMessage<F>): seq<Emission<F>> {
    [Emission(node.id, port, message)]
  }

  function Operate<F>(ops: Numbers<F>, s: State<F>, node: ControlNode<F>, port: string,
                      message: ControlMessage<F>): Outcome<F>
    requires node.kind.OperatorKind?
  {
    if port == "in" then
      if IsBang(message) then
        var stored := if node.id in s.values then s.values[node.id] else FloatValue(ops.zero);
        Done(s, Emit(node, "out", FromValue(stored)))
      else
        match NumericMessage(ops, message)
        case None => Failed
        case Some(input) =>
          var result := FloatValue(Sanitize(ops, Combine(ops, node.kind.op, input, RightOperand(ops, s, node))));
          Done(s.(values := s.values[node.id := result]),
               if message.selector == "set" then [] else Emit(node, "out", FromValue(result)))
    else if port == "right" then
      if IsBang(message) || message.selector == "set" then Failed else
        match NumericMessage(ops, message)
        case None => Failed
        case Some(right) => Done(s.(operatorRight := s.operatorRight[node.id := FloatValue(right)]), [])
    else Failed
  }

  function MessageOfStored<F>(ops: Numbers<F>, stored: ControlValue<F>): ControlMessage<F> {
    match stored
    case Str(text) => ParseText(ops.text, text)
    case _ => FromValue(stored)
  }

  /** An event at the hot input of a node that stores a value. */
  function HotInput<F>(ops: Numbers<F>, s: State<F>, node: ControlNode<F>, message: ControlMessage<F>): Outcome<F>
    requires node.id in s.values
  {
    var stored := s.values[node.id];
    if node.kind.MessageKind? then
      if message.selector == "set" then Done(s.(values := s.values[node.id := Str(SetText(ops, message))]), [])
      else Done(s, Emit(node, "out", MessageOfStored(ops, stored)))
    else if node.kind.CommentKind? || node.kind.PanelKind? then
      if message.selector == "set" then Done(s.(values := s.values[node.id := Str(SetText(ops, message))]), [])
      else Failed
    else if IsBang(message) then Done(s, Emit(node, "value", FromValue(stored)))
    else
      match ValueFromMessage(ops, message, stored)
      case None => Failed
      case Some(next) =>
        Done(s.(values := s.values[node.id := next]),
             if message.selector == "set" then [] else Emit(node, "value", FromValue(next)))
  }

  function ColdInput<F>(ops: Numbers<F>, s: State<F>, node: ControlNode<F>, message: ControlMessage<F>): Outcome<F>
    requires node.id in s.values
  {
    if node.kind.MessageKind? || IsBang(message) || message.selector == "set" then Failed else
      match ValueFromMessage(ops, message, s.values[node.id])
      case None => Failed
      case Some(next) => Done(s.(values := s.values[node.id := next]), [])
  }

  /** The effect of one event on one node, without propagation. */
  function Direct<F>(ops: Numbers<F>, nodes: seq<ControlNode<F>>, s: State<F>, request: Request<F>): Outcome<F> {
    match FindNode(nodes, request.nodeId)
    case None => Failed
    case Some(node) =>
      if !Supports(node.kind) then Failed
      else if node.kind.BangKind? then
        if request.portId != "in" then Failed else Done(s, Emit(node, "out", Bang()))
      else if request.portId !in node.inputs then Failed
      else if node.kind.OperatorKind? then Operate(ops, s, node, request.portId, request.message)
      else if node.id !in s.values then Failed
      else if request.portId == "in" then HotInput(ops, s, node, request.message)
      else if request.portId == "cold" then ColdInput(ops, s, node, request.message)
      else Failed
  }

  // ---- Channels ------------------------------------------------------------------------------------------

  /** A channel name parameter, unless it is blank. */
  function NamedParam<F>(node: ControlNode<F>, key: string): Option<string> {
    if key in node.strings && Trim(node.strings[key]) != "" then Some(Trim(node.strings[key])) else None
  }

  predicate Receives<F>(node: ControlNode<F>, sourceId: string, name: string, kind: DataKind) {
    node.id != sourceId && NamedParam(node, "receiveName") == Some(name) && Accepts(node, kind)
  }

  /** What a broadcast does to one node: a receiver that takes the message is updated, and one that
      rejects it is left alone. */
  function Receive<F>(ops: Numbers<F>, nodes: seq<ControlNode<F>>, s: State<F>, node: ControlNode<F>, name: string,
                      message: ControlMessage<F>, sourceId: string): (State<F>, seq<Emission<F>>) {
    if !Receives(node, sourceId, name, DataKindOf(message)) then (s, []) else
      match Direct(ops, nodes, s, Request(node.id, "in", message))
      case Done(s', emitted) => (s', emitted)
      case Failed => (s, [])
  }

  /** The effect of a broadcast on the first k nodes, one after the other. */
  function Broadcast<F>(ops: Numbers<F>, nodes: seq<ControlNode<F>>, k: nat, s: State<F>, name: string,
                        message: ControlMessage<F>, sourceId: string): (State<F>, seq<Emission<F>>)
    requires k <= |nodes|
  {
    if k == 0 then (s, []) else
      var before := Broadcast(ops, nodes, k - 1, s, name, message, sourceId);
      var one := Receive(ops, nodes, before.0, nodes[k - 1], name, message, sourceId);
      (one.0, before.1 + one.1)
  }

  /** Stores an emission in the channel its node sends to, and broadcasts it. */
  function Publish<F>(ops: Numbers<F>, nodes: seq<ControlNode<F>>, s: State<F>, emission: Emission<F>)
    : (State<F>, seq<Emission<F>>)
  {
    match FindNode(nodes, emission.nodeId)
    case None => (s, [])
    case Some(node) =>
      match NamedParam(node, "sendName")
      case None => (s, [])
      case Some(name) =>
        var key := ChannelKey(DataKindOf(emission.message), name);
        Broadcast(ops, nodes, |nodes|, s.(channels := s.channels[key := emission.message]), name, emission.message,
                  emission.nodeId)
  }

  // ---- Delivery ------------------------------------------------------------------------------------------

  /** The node that an edge carries an emission to, unless the edge leaves another port or the node
      takes no control events. */
  function Target<F>(graph: ControlGraph<F>, edge: Wire, emission: Emission<F>): Option<ControlNode<F>> {
    if edge.source != PortRef(emission.nodeId, emission.portId) then None else
      match FindNode(graph.nodes, edge.target.nodeId)
      case Some(node) => if Supports(node.kind) then Some(node) else None
      case None => None
  }

  /** The effect of an emission on the targets of the first k edges; it fails at the first target
      that rejects the message. */
  function AlongEdges<F>(ops: Numbers<F>, graph: ControlGraph<F>, k: nat, s: State<F>,
                         emission: Emission<F>): Outcome<F>
    requires k <= |graph.edges|
  {
    if k == 0 then Done(s, []) else
      match AlongEdges(ops, graph, k - 1, s, emission)
      case Failed => Failed
      case Done(before, emitted) =>
        var edge := graph.edges[k - 1];
        match Target(graph, edge, emission)
        case None => Done(before, emitted)
        case Some(node) =>
          match Direct(ops, graph.nodes, before, Request(node.id, edge.target.portId, emission.message))
          case Failed => Failed
          case Done(after, more) => Done(after, emitted + more)
  }

  /** What one more edge does. */
  lemma NextEdge<F>(ops: Numbers<F>, graph: ControlGraph<F>, j: nat, s: State<F>, emission: Emission<F>,
                    before: State<F>, emitted: seq<Emission<F>>)
    requires j < |graph.edges| && AlongEdges(ops, graph, j, s, emission) == Done(before, emitted)
    ensures
      AlongEdges(ops, graph, j + 1, s, emission) ==
      match Target(graph, graph.edges[j], emission)
      case None => Done(before, emitted)
      case Some(node) =>
        match Direct(ops, graph.nodes, before, Request(node.id, graph.edges[j].target.portId, emission.message))
        case Failed => Failed
        case Done(after, more) => Done(after, emitted + more)
  {
  }

  /** An emission is delivered to its channel and then along every edge from its port. */
  function Deliver<F>(ops: Numbers<F>, graph: ControlGraph<F>, s: State<F>, emission: Emission<F>): Outcome<F> {
    var published := Publish(ops, graph.nodes, s, emission);
    match AlongEdges(ops, graph, |graph.edges|, published.0, emission)
    case Failed => Failed
    case Done(s', emitted) => Done(s', published.1 + emitted)
  }

  function Limit(edges: nat): nat {
    if edges * 2 >= 32 then edges * 2 else 32
  }
}
