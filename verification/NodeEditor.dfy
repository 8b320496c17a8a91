/** The node graph object: template defaults, required parameters, and the two command stacks. */
module NodeGraphRuntime {
  import opened Sequences
  import opened UndoHistory

  datatype Parameter = Parameter(name: string, default: Option<string>, required: bool)

  datatype Template = Template(id: nat, name: string, parameters: seq<Parameter>)

  datatype NodeError = NotFound(id: nat) | MissingRequiredParameter(param: string) | NothingToUndo | NothingToRedo

  /** Declared defaults; the last declaration of a name wins. */
  function Defaults(parameters: seq<Parameter>): Params {
    if parameters == [] then map[] else
    var p := parameters[|parameters| - 1];
    var d := Defaults(parameters[..|parameters| - 1]);
    if p.default.Some? then d[p.name := p.default.value] else d
  }

  function FirstMissing(parameters: seq<Parameter>, given: Params): Option<string>
    decreases |parameters|
  {
    if parameters == [] then None
    else if parameters[0].required && parameters[0].name !in given then Some(parameters[0].name)
    else FirstMissing(parameters[1..], given)
  }

  function FinalParams(t: Template, params: Params): Params {
    Defaults(t.parameters) + params
  }

  /** A node can be made exactly when every required name is supplied or given a default by some declaration. */
  lemma {:induction false} AddSucceedsExactlyWhenRequiredAreGiven(t: Template, params: Params)
    ensures FirstMissing(t.parameters, FinalParams(t, params)).None? <==>
            forall i :: 0 <= i < |t.parameters| && t.parameters[i].required ==>
              t.parameters[i].name in params || HasDefault(t.parameters, t.parameters[i].name)
  {
    forall name
      ensures name in Defaults(t.parameters) <==> HasDefault(t.parameters, name)
    {
      DefaultsHave(t.parameters, name);
    }
    MissingMeaning(t.parameters, FinalParams(t, params));
  }

  /** The i-th declaration is the last one that gives `name` a default. */
  ghost predicate LastDefault(parameters: seq<Parameter>, name: string, i: nat) {
    && i < |parameters| && parameters[i].name == name && parameters[i].default.Some?
    && forall j :: i < j < |parameters| ==> parameters[j].name != name || parameters[j].default.None?
  }

  lemma {:induction false} DefaultsMeans(parameters: seq<Parameter>, name: string, i: nat)
    requires LastDefault(parameters, name, i)
    ensures name in Defaults(parameters) && Defaults(parameters)[name] == parameters[i].default.value
    decreases |parameters|
  {
    if i < |parameters| - 1 {
      DefaultsMeans(parameters[..|parameters| - 1], name, i);
    }
  }

  /** A caller's value goes over any default, a later default over an earlier one, and there is nothing else. */
  lemma FinalParamsMeans(t: Template, params: Params, name: string)
    ensures var final := FinalParams(t, params);
            && (name in params ==> name in final && final[name] == params[name])
            && (name !in params ==> forall i: nat :: LastDefault(t.parameters, name, i) ==>
                  name in final && final[name] == t.parameters[i].default.value)
            && (name !in params && !HasDefault(t.parameters, name) ==> name !in final)
  {
    DefaultsHave(t.parameters, name);
    forall i: nat | LastDefault(t.parameters, name, i)
      ensures name in Defaults(t.parameters) && Defaults(t.parameters)[name] == t.parameters[i].default.value
    {
      DefaultsMeans(t.parameters, name, i);
    }
  }

  /** The parameter named in a refusal is the first required one that has no value. */
  lemma {:induction false} FirstMissingMeans(parameters: seq<Parameter>, given: Params, i: nat)
    requires i < |parameters| && parameters[i].required && parameters[i].name !in given
    requires forall j :: 0 <= j < i ==> !parameters[j].required || parameters[j].name in given
    ensures FirstMissing(parameters, given) == Some(parameters[i].name)
    decreases i
  {
    if i > 0 {
      assert !parameters[0].required || parameters[0].name in given;
      assert forall j :: 0 <= j < i - 1 ==> parameters[1..][j] == parameters[j + 1];
      FirstMissingMeans(parameters[1..], given, i - 1);
    }
  }

  ghost predicate HasDefault(parameters: seq<Parameter>, name: string) {
    exists i :: 0 <= i < |parameters| && parameters[i].name == name && parameters[i].default.Some?
  }

  lemma {:induction false} DefaultsHave(parameters: seq<Parameter>, name: string)
    ensures name in Defaults(parameters) <==> HasDefault(parameters, name)
  {
    if parameters != [] {
      DefaultsHave(parameters[..|parameters| - 1], name);
    }
  }

  lemma {:induction false} MissingMeaning(parameters: seq<Parameter>, given: Params)
    ensures FirstMissing(parameters, given).None? <==>
            forall i :: 0 <= i < |parameters| && parameters[i].required ==> parameters[i].name in given
    decreases |parameters|
  {
    if parameters != [] {
      var rest := parameters[1..];
      MissingMeaning(rest, given);
      assert forall i :: 0 <= i < |rest| ==> rest[i] == parameters[i + 1];
      assert forall i :: 0 < i < |parameters| ==> parameters[i] == rest[i - 1];
    }
  }

  class NodeGraph {
    var nodes: Nodes
    var undoStack: seq<Command>
    var redoStack: seq<Command>
    const dimension: nat

    function Value(): Editor
      reads this
    {
      Editor(nodes, undoStack, redoStack)
    }

    predicate Valid()
      reads this
    {
      EditorOk(Value())
    }

    /** The snapshots behind, at and ahead of the current state. */
    function Zip(): Zipper
      reads this
    {
      Abs(Value())
    }

    constructor (dimension: nat)
      ensures Valid() && Value() == EMPTY_EDITOR && Zip() == EMPTY_ZIPPER && this.dimension == dimension
    {
      this.dimension := dimension;
      nodes, undoStack, redoStack := map[], [], [];
    }

    method ExecuteCommand(c: Command)
      modifies this`nodes
      ensures nodes == Execute(old(nodes), c)
    {
      match c
      case Add(n) => nodes := nodes[n.id := n];
      case Remove(n) => nodes := nodes - {n.id};
      case Update(id, _, new_) =>
        if id in nodes {
          nodes := nodes[id := nodes[id].(parameters := new_)];
        }
      case Move(id, _, new_) =>
        if id in nodes {
          nodes := nodes[id := nodes[id].(position := new_)];
        }
    }

    method ApplyCommand(c: Command)
      requires Inv(Value()) && Reversible(nodes, c)
      modifies this
      ensures Value() == Commit(old(Value()), c) && Inv(Value())
      ensures Zip() == Record(old(Zip()), Execute(old(nodes), c))
    {
      CommitRefines(Value(), c);
      var inverse := Inverse(c);
      ExecuteCommand(c);
      undoStack := undoStack + [inverse];
      redoStack := [];
    }

    static method Merge(t: Template, params: Params) returns (final: Params)
      ensures final == FinalParams(t, params)
    {
      final := map[];
      for i := 0 to |t.parameters|
        invariant final == Defaults(t.parameters[..i])
      {
        assert t.parameters[..i + 1][..i] == t.parameters[..i];
        var p := t.parameters[i];
        if p.default.Some? {
          final := final[p.name := p.default.value];
        }
      }
      assert t.parameters[..|t.parameters|] == t.parameters;
      final := final + params;
    }

    static method CheckRequired(t: Template, given: Params) returns (missing: Option<string>)
      ensures missing == FirstMissing(t.parameters, given)
    {
      for i := 0 to |t.parameters|
        invariant FirstMissing(t.parameters, given) == FirstMissing(t.parameters[i..], given)
      {
        assert t.parameters[i..][1..] == t.parameters[i + 1..];
        var p := t.parameters[i];
        if p.required && p.name !in given {
          return Some(p.name);
        }
      }
      missing := None;
    }

    /** A new node gets a new id; a refused addition changes nothing. */
    method AddNode(t: Template, name: string, position: (real, real), params: Params, id: nat)
      returns (r: Result<nat, NodeError>)
      requires Valid() && id !in nodes
      modifies this
      ensures Valid()
      ensures var missing := FirstMissing(t.parameters, FinalParams(t, params));
              if missing.Some? then r == Err(MissingRequiredParameter(missing.value)) && Value() == old(Value())
              else
                var n := Node(id, dimension, t.id, name, FinalParams(t, params), position);
                && r == Ok(id) && Value() == Step(old(Value()), UndoHistory.AddNode(n))
                && Zip() == Record(old(Zip()), old(nodes)[id := n])
    {
      var final := Merge(t, params);
      var missing := CheckRequired(t, final);
      if missing.Some? {
        return Err(MissingRequiredParameter(missing.value));
      }
      var n := Node(id, dimension, t.id, name, final, position);
      StepRefines(Value(), UndoHistory.AddNode(n));
      ApplyCommand(Add(n));
      r := Ok(id);
    }

    method RemoveNode(id: nat) returns (r: Result<(), NodeError>)
      requires Valid()
      modifies this
      ensures Valid() && Value() == Step(old(Value()), UndoHistory.RemoveNode(id))
      ensures id !in old(nodes) ==> r == Err(NotFound(id)) && Value() == old(Value())
      ensures id in old(nodes) ==> r == Ok(()) && Zip() == Record(old(Zip()), old(nodes) - {id})
    {
      StepRefines(Value(), UndoHistory.RemoveNode(id));
      if id !in nodes {
        return Err(NotFound(id));
      }
      ApplyCommand(Remove(nodes[id]));
      r := Ok(());
    }

    method UpdateNode(id: nat, updates: Params) returns (r: Result<(), NodeError>)
      requires Valid()
      modifies this
      ensures Valid() && Value() == Step(old(Value()), UndoHistory.UpdateNode(id, updates))
      ensures id !in old(nodes) ==> r == Err(NotFound(id)) && Value() == old(Value())
      ensures id in old(nodes) ==> r == Ok(())
      ensures id in old(nodes) ==>
                Zip() == Record(old(Zip()), old(nodes)[id := old(nodes)[id].(parameters := old(nodes)[id].parameters + updates)])
    {
      StepRefines(Value(), UndoHistory.UpdateNode(id, updates));
      if id !in nodes {
        return Err(NotFound(id));
      }
      ApplyCommand(Update(id, nodes[id].parameters, nodes[id].parameters + updates));
      r := Ok(());
    }

    method MoveNode(id: nat, position: (real, real)) returns (r: Result<(), NodeError>)
      requires Valid()
      modifies this
      ensures Valid() && Value() == Step(old(Value()), UndoHistory.MoveNode(id, position))
      ensures id !in old(nodes) ==> r == Err(NotFound(id)) && Value() == old(Value())
      ensures id in old(nodes) ==> r == Ok(())
      ensures id in old(nodes) ==> Zip() == Record(old(Zip()), old(nodes)[id := old(nodes)[id].(position := position)])
    {
      StepRefines(Value(), UndoHistory.MoveNode(id, position));
      if id !in nodes {
        return Err(NotFound(id));
      }
      ApplyCommand(Move(id, nodes[id].position, position));
      r := Ok(());
    }

    method Undo() returns (r: Result<(), NodeError>)
      requires Valid()
      modifies this
      ensures Valid() && Value() == Step(old(Value()), UndoOp) && Zip() == Back(old(Zip()))
      ensures r == if old(Zip()).past == [] then Err(NothingToUndo) else Ok(())
    {
      StepRefines(Value(), UndoOp);
      if undoStack == [] {
        return Err(NothingToUndo);
      }
      var command := undoStack[|undoStack| - 1];
      undoStack := undoStack[..|undoStack| - 1];
      var inverse := Inverse(command);
      ExecuteCommand(command);
      redoStack := redoStack + [inverse];
      r := Ok(());
    }

    method Redo() returns (r: Result<(), NodeError>)
      requires Valid()
      modifies this
      ensures Valid() && Value() == Step(old(Value()), RedoOp) && Zip() == Forward(old(Zip()))
      ensures r == if old(Zip()).future == [] then Err(NothingToRedo) else Ok(())
    {
      StepRefines(Value(), RedoOp);
      if redoStack == [] {
        return Err(NothingToRedo);
      }
      var command := redoStack[|redoStack| - 1];
      redoStack := redoStack[..|redoStack| - 1];
      var inverse := Inverse(command);
      ExecuteCommand(command);
      undoStack := undoStack + [inverse];
      r := Ok(());
    }
  }
}
