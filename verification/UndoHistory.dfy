/** Undo and redo by stacks of inverse commands, against a zipper of whole-graph snapshots. */
module UndoHistory {
  import opened Sequences

  type Params = map<string, string>

  datatype Node = Node(id: nat, dimension: nat, template: nat, name: string, parameters: Params, position: (real, real))

  type Nodes = map<nat, Node>

  datatype Command =
    | Add(node: Node)
    | Remove(node: Node)
    | Update(id: nat, oldParams: Params, newParams: Params)
    | Move(id: nat, oldPos: (real, real), newPos: (real, real))

  function Inverse(c: Command): (r: Command)
    ensures c.Add? <==> r.Remove?
    ensures c.Update? <==> r.Update?
  {
    match c
    case Add(n) => Remove(n)
    case Remove(n) => Add(n)
    case Update(id, o, n) => Update(id, n, o)
    case Move(id, o, n) => Move(id, n, o)
  }

  function Execute(nodes: Nodes, c: Command): Nodes {
    match c
    case Add(n) => nodes[n.id := n]
    case Remove(n) => nodes - {n.id}
    case Update(id, _, new_) => if id in nodes then nodes[id := nodes[id].(parameters := new_)] else nodes
    case Move(id, _, new_) => if id in nodes then nodes[id := nodes[id].(position := new_)] else nodes
  }

  /** The command says truly what it replaces, so that its inverse undoes it. */
  predicate Reversible(nodes: Nodes, c: Command) {
    match c
    case Add(n) => n.id !in nodes
    case Remove(n) => n.id in nodes && nodes[n.id] == n
    case Update(id, o, _) => id in nodes && nodes[id].parameters == o
    case Move(id, o, _) => id in nodes && nodes[id].position == o
  }

  lemma InverseUndoes(nodes: Nodes, c: Command)
    requires Reversible(nodes, c)
    ensures Execute(Execute(nodes, c), Inverse(c)) == nodes
    ensures Reversible(Execute(nodes, c), Inverse(c)) && Inverse(Inverse(c)) == c
  {
  }

  // ----- the editor: current nodes and two command stacks, tops last -----

  datatype Editor = Editor(nodes: Nodes, undo: seq<Command>, redo: seq<Command>)

  function Commit(e: Editor, c: Command): Editor {
    Editor(Execute(e.nodes, c), e.undo + [Inverse(c)], [])
  }

  function Undo(e: Editor): Editor {
    if e.undo == [] then e else
    var c := e.undo[|e.undo| - 1];
    Editor(Execute(e.nodes, c), e.undo[..|e.undo| - 1], e.redo + [Inverse(c)])
  }

  function Redo(e: Editor): Editor {
    if e.redo == [] then e else
    var c := e.redo[|e.redo| - 1];
    Editor(Execute(e.nodes, c), e.undo + [Inverse(c)], e.redo[..|e.redo| - 1])
  }

  /** The snapshots a stack leads to, from the farthest to the nearest. */
  function Snapshots(nodes: Nodes, stack: seq<Command>): (r: seq<Nodes>)
    ensures |r| == |stack|
    decreases |stack|
  {
    if stack == [] then [] else
    var next := Execute(nodes, stack[|stack| - 1]);
    Snapshots(next, stack[..|stack| - 1]) + [next]
  }

  /** Every command of the stack is reversible in the state it will meet. */
  predicate Chain(nodes: Nodes, stack: seq<Command>)
    decreases |stack|
  {
    stack == [] || (
      && Reversible(nodes, stack[|stack| - 1])
      && Chain(Execute(nodes, stack[|stack| - 1]), stack[..|stack| - 1]))
  }

  predicate Inv(e: Editor) {
    Chain(e.nodes, e.undo) && Chain(e.nodes, e.redo)
  }

  // ----- the reference: a zipper of snapshots -----

  datatype Zipper = Zipper(past: seq<Nodes>, present: Nodes, future: seq<Nodes>)

  function Record(z: Zipper, nodes: Nodes): Zipper {
    Zipper(z.past + [z.present], nodes, [])
  }

  function Back(z: Zipper): Zipper {
    if z.past == [] then z
    else Zipper(z.past[..|z.past| - 1], z.past[|z.past| - 1], z.future + [z.present])
  }

  function Forward(z: Zipper): Zipper {
    if z.future == [] then z
    else Zipper(z.past + [z.present], z.future[|z.future| - 1], z.future[..|z.future| - 1])
  }

  function Abs(e: Editor): Zipper {
    Zipper(Snapshots(e.nodes, e.undo), e.nodes, Snapshots(e.nodes, e.redo))
  }

  lemma PushInverse(nodes: Nodes, c: Command, stack: seq<Command>)
    requires Reversible(nodes, c) && Chain(nodes, stack)
    ensures Chain(Execute(nodes, c), stack + [Inverse(c)])
    ensures Snapshots(Execute(nodes, c), stack + [Inverse(c)]) == Snapshots(nodes, stack) + [nodes]
  {
    InverseUndoes(nodes, c);
    assert (stack + [Inverse(c)])[..|stack|] == stack;
  }

  lemma CommitRefines(e: Editor, c: Command)
    requires Inv(e) && Reversible(e.nodes, c)
    ensures Inv(Commit(e, c)) && Abs(Commit(e, c)) == Record(Abs(e), Execute(e.nodes, c))
  {
    PushInverse(e.nodes, c, e.undo);
  }

  lemma UndoRefines(e: Editor)
    requires Inv(e)
    ensures Inv(Undo(e)) && Abs(Undo(e)) == Back(Abs(e))
  {
    if e.undo != [] {
      PushInverse(e.nodes, e.undo[|e.undo| - 1], e.redo);
    }
  }

  lemma RedoRefines(e: Editor)
    requires Inv(e)
    ensures Inv(Redo(e)) && Abs(Redo(e)) == Forward(Abs(e))
  {
    if e.redo != [] {
      PushInverse(e.nodes, e.redo[|e.redo| - 1], e.undo);
    }
  }

  // ----- runs -----

  datatype Op =
    | AddNode(node: Node)
    | RemoveNode(id: nat)
    | UpdateNode(id: nat, updates: Params)
    | MoveNode(id: nat, position: (real, real))
    | UndoOp
    | RedoOp

  /** What an edit does to the graph itself; none when it is refused (or an added id is not new). */
  function Effect(nodes: Nodes, op: Op): Option<Nodes> {
    match op
    case AddNode(n) => if n.id in nodes then None else Some(nodes[n.id := n])
    case RemoveNode(id) => if id in nodes then Some(nodes - {id}) else None
    case UpdateNode(id, u) =>
      if id in nodes then Some(nodes[id := nodes[id].(parameters := nodes[id].parameters + u)]) else None
    case MoveNode(id, p) => if id in nodes then Some(nodes[id := nodes[id].(position := p)]) else None
    case _ => None
  }

  function ZipperStep(z: Zipper, op: Op): Zipper {
    match op
    case UndoOp => Back(z)
    case RedoOp => Forward(z)
    case _ => var r := Effect(z.present, op); if r.Some? then Record(z, r.value) else z
  }

  /** The command an accepted edit turns into. */
  function CommandOf(nodes: Nodes, op: Op): Option<Command> {
    match op
    case AddNode(n) => if n.id in nodes then None else Some(Add(n))
    case RemoveNode(id) => if id in nodes then Some(Remove(nodes[id])) else None
    case UpdateNode(id, u) =>
      if id in nodes then Some(Update(id, nodes[id].parameters, nodes[id].parameters + u)) else None
    case MoveNode(id, p) => if id in nodes then Some(Move(id, nodes[id].position, p)) else None
    case _ => None
  }

  function Step(e: Editor, op: Op): Editor {
    match op
    case UndoOp => Undo(e)
    case RedoOp => Redo(e)
    case _ => var c := CommandOf(e.nodes, op); if c.Some? then Commit(e, c.value) else e
  }

  /** Nodes are stored under their own ids. */
  predicate Keyed(nodes: Nodes) {
    forall id :: id in nodes ==> nodes[id].id == id
  }

  predicate AllKeyed(z: Zipper) {
    && Keyed(z.present)
    && (forall i :: 0 <= i < |z.past| ==> Keyed(z.past[i]))
    && (forall i :: 0 <= i < |z.future| ==> Keyed(z.future[i]))
  }

  predicate EditorOk(e: Editor) {
    Inv(e) && AllKeyed(Abs(e))
  }

  /** An accepted edit turns into a truthful command with the same effect. */
  lemma CommandRealises(nodes: Nodes, op: Op)
    requires Keyed(nodes)
    ensures CommandOf(nodes, op).Some? <==> Effect(nodes, op).Some?
    ensures CommandOf(nodes, op).Some? ==>
              var c := CommandOf(nodes, op).value;
              Reversible(nodes, c) && Execute(nodes, c) == Effect(nodes, op).value && Keyed(Execute(nodes, c))
  {
  }

  lemma EditRefines(e: Editor, op: Op)
    requires EditorOk(e) && !op.UndoOp? && !op.RedoOp?
    ensures EditorOk(Step(e, op)) && Abs(Step(e, op)) == ZipperStep(Abs(e), op)
  {
    CommandRealises(e.nodes, op);
    var c := CommandOf(e.nodes, op);
    if c.Some? {
      CommitRefines(e, c.value);
    }
  }

  lemma StepRefines(e: Editor, op: Op)
    requires EditorOk(e)
    ensures EditorOk(Step(e, op)) && Abs(Step(e, op)) == ZipperStep(Abs(e), op)
  {
    if op.UndoOp? {
      UndoRefines(e);
    } else if op.RedoOp? {
      RedoRefines(e);
    } else {
      EditRefines(e, op);
    }
  }

  function Run(e: Editor, ops: seq<Op>): Editor
    decreases |ops|
  {
    if ops == [] then e else Run(Step(e, ops[0]), ops[1..])
  }

  function ZipperRun(z: Zipper, ops: seq<Op>): Zipper
    decreases |ops|
  {
    if ops == [] then z else ZipperRun(ZipperStep(z, ops[0]), ops[1..])
  }

  const EMPTY_EDITOR := Editor(map[], [], [])
  const EMPTY_ZIPPER := Zipper([], map[], [])

  /** Every run of edits, undos and redos goes through exactly the snapshots the zipper goes through. */
  lemma {:induction false} EveryRunIsAZipper(e: Editor, ops: seq<Op>)
    requires EditorOk(e)
    ensures EditorOk(Run(e, ops)) && Abs(Run(e, ops)) == ZipperRun(Abs(e), ops)
    decreases |ops|
  {
    if ops != [] {
      StepRefines(e, ops[0]);
      EveryRunIsAZipper(Step(e, ops[0]), ops[1..]);
    }
  }

  function Repeat(op: Op, k: nat): (r: seq<Op>)
    ensures |r| == k
  {
    seq(k, _ => op)
  }

  lemma {:induction false} BackThenForward(z: Zipper, k: nat)
    requires k <= |z.past|
    ensures ZipperRun(ZipperRun(z, Repeat(UndoOp, k)), Repeat(RedoOp, k)) == z
    decreases k
  {
    if k > 0 {
      assert Repeat(UndoOp, k)[1..] == Repeat(UndoOp, k - 1);
      assert Repeat(RedoOp, k) == Repeat(RedoOp, k - 1) + [RedoOp];
      BackThenForward(Back(z), k - 1);
      ZipperRunConcat(ZipperRun(z, Repeat(UndoOp, k)), Repeat(RedoOp, k - 1), [RedoOp]);
      assert Forward(Back(z)) == z;
    }
  }

  lemma {:induction false} ZipperRunConcat(z: Zipper, xs: seq<Op>, ys: seq<Op>)
    ensures ZipperRun(z, xs + ys) == ZipperRun(ZipperRun(z, xs), ys)
    decreases |xs|
  {
    if xs == [] {
      assert xs + ys == ys;
    } else {
      assert (xs + ys)[1..] == xs[1..] + ys;
      ZipperRunConcat(ZipperStep(z, xs[0]), xs[1..], ys);
    }
  }

  /** Any k undos followed by k redos restore the nodes, whatever run came before. */
  lemma UndoThenRedoRestores(ops: seq<Op>, k: nat)
    requires k <= |Run(EMPTY_EDITOR, ops).undo|
    ensures var e := Run(EMPTY_EDITOR, ops);
            Run(Run(e, Repeat(UndoOp, k)), Repeat(RedoOp, k)).nodes == e.nodes
  {
    var e := Run(EMPTY_EDITOR, ops);
    EveryRunIsAZipper(EMPTY_EDITOR, ops);
    EveryRunIsAZipper(e, Repeat(UndoOp, k));
    EveryRunIsAZipper(Run(e, Repeat(UndoOp, k)), Repeat(RedoOp, k));
    BackThenForward(Abs(e), k);
  }

  /** The oldest snapshot reachable by undoing. */
  function Oldest(z: Zipper): Nodes {
    if z.past == [] then z.present else z.past[0]
  }

  lemma {:induction false} OldestStays(z: Zipper, ops: seq<Op>)
    ensures Oldest(ZipperRun(z, ops)) == Oldest(z)
    decreases |ops|
  {
    if ops != [] {
      OldestStays(ZipperStep(z, ops[0]), ops[1..]);
    }
  }

  lemma {:induction false} BackToOldest(z: Zipper)
    ensures ZipperRun(z, Repeat(UndoOp, |z.past|)).present == Oldest(z)
    decreases |z.past|
  {
    if z.past != [] {
      assert Repeat(UndoOp, |z.past|)[1..] == Repeat(UndoOp, |z.past| - 1);
      BackToOldest(Back(z));
    }
  }

  /** Undoing everything that can be undone returns to the empty graph, after any run. */
  lemma UndoingEverythingEmptiesTheGraph(ops: seq<Op>)
    ensures var e := Run(EMPTY_EDITOR, ops);
            Run(e, Repeat(UndoOp, |e.undo|)).nodes == map[]
  {
    var e := Run(EMPTY_EDITOR, ops);
    EveryRunIsAZipper(EMPTY_EDITOR, ops);
    EveryRunIsAZipper(e, Repeat(UndoOp, |e.undo|));
    OldestStays(EMPTY_ZIPPER, ops);
    BackToOldest(Abs(e));
  }
}
