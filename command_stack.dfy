/**
 * The undo/redo history of timeline edits. A command is one of the four edit commands; what
 * running or undoing it does is the command's own two-state predicate, which reads only the
 * objects that command touches, so that it survives the stack's own field updates.
 */
module CommandHistory {
  import opened Wrappers
  import opened TimelineModel
  import opened TimelineCommands

  datatype Command =
    | Add(add: AddClipCommand)
    | Split(split: SplitClipCommand)
    | Trim(trim: TrimClipCommand)
    | Ripple(ripple: RippleDeleteCommand)

  /** The objects whose fields decide which objects a command touches. */
  ghost function Roots(c: Command): set<object>
  {
    match c
    case Add(a) => {a.timeline}
    case Split(s) => {s as object, s.timeline}
    case Trim(t) => {}
    case Ripple(r) => {r as object, r.timeline}
  }

  ghost function Tracks(timeline: Timeline): set<object>
    reads timeline
  {
    set o: object | o in timeline.tracks
  }

  /** Everything a command may read or change when it runs or is undone. */
  ghost function Touched(c: Command): set<object>
    reads Roots(c), (if c.Ripple? then Tracks(c.ripple.timeline) else {})
  {
    match c
    case Add(a) => {a.timeline as object} + Tracks(a.timeline)
    case Split(s) => {s as object, s.originalClip, s.timeline} + Tracks(s.timeline) + s.RightSet()
    case Trim(t) => {t as object, t.clip}
    case Ripple(r) => {r as object, r.timeline} + Tracks(r.timeline) + r.TargetClips() + r.MovedSet()
  }

  /** What each command's `execute` needs of the clips: only a split has a requirement. */
  ghost predicate ReadyToExecute(c: Command)
    reads Roots(c), if c.Split? then {c.split.originalClip} else {}
  {
    c.Split? ==> c.split.originalClip.Valid()
  }

  ghost predicate ReadyToUndo(c: Command)
    reads Roots(c), if c.Split? then {c.split.originalClip} + c.split.RightSet() else {}
  {
    c.Split? ==> c.split.Valid()
  }

  /**
   * One `execute` of `c`; `ok` is false where it throws. A split's new right clip gets the id
   * `freshId`; adding and ripple delete never throw.
   */
  twostate predicate Executed(c: Command, ok: bool, freshId: nat)
    reads Touched(c)
  {
    match c
    case Add(a) => ok && a.Executed()
    case Split(s) => s.Executed(ok, freshId)
    case Trim(t) => t.Executed(ok)
    case Ripple(r) => ok && r.Executed()
  }

  /** The record a ripple delete's undo replays, and nothing for the other commands. */
  function Moved(c: Command): seq<ClipState>
    reads if c.Ripple? then {c.ripple} else {}
  {
    if c.Ripple? then c.ripple.movedClips else []
  }

  /** One `undo` of `c`, with `moved` the ripple record it starts from. */
  twostate predicate Undone(c: Command, ok: bool, moved: seq<ClipState>)
    reads Touched(c), set s | s in moved :: s.clip
  {
    match c
    case Add(a) => ok && a.Undone()
    case Split(s) => ok && s.Undone()
    case Trim(t) => t.Undone(ok)
    case Ripple(r) => ok && r.Undone(moved)
  }

  /** `command.execute()`. */
  method ExecuteCommand(c: Command, freshId: nat) returns (ok: bool)
    requires ReadyToExecute(c)
    modifies Touched(c)
    ensures Executed(c, ok, freshId)
  {
    match c
    case Add(a) =>
      a.Execute();
      ok := true;
    case Split(s) =>
      ok := s.Execute(freshId);
    case Trim(t) =>
      ok := t.Execute();
    case Ripple(r) =>
      r.Execute();
      ok := true;
  }

  /** `command.undo()`. */
  method UndoCommand(c: Command) returns (ok: bool)
    requires ReadyToUndo(c)
    modifies Touched(c)
    ensures Undone(c, ok, old(Moved(c)))
  {
    match c
    case Add(a) =>
      a.Undo();
      ok := true;
    case Split(s) =>
      s.Undo();
      ok := true;
    case Trim(t) =>
      ok := t.Undo();
    case Ripple(r) =>
      r.Undo();
      ok := true;
  }

  /** The stack's own fields are not among the objects of a command. */
  lemma StackNotTouched(c: Command, stack: CommandStack)
    ensures stack !in Touched(c)
  {
    if c.Ripple? {
      assert stack as object !in c.ripple.TargetClips();
    }
  }

  /**
   * `CommandStack`: two stacks of commands, the newest at index 0. A command whose `execute`
   * or `undo` throws is not pushed again: the Java code pops it (or has not pushed it yet)
   * when the exception leaves.
   */
  class CommandStack {
    var undoStack: seq<Command>
    var redoStack: seq<Command>

    constructor ()
      ensures undoStack == [] && redoStack == []
    {
      undoStack := [];
      redoStack := [];
    }

    /** `push`: runs the command, then records it for undo and forgets everything undone. */
    method Push(c: Command, freshId: nat) returns (ok: bool)
      requires ReadyToExecute(c)
      modifies this, Touched(c)
      ensures Executed(c, ok, freshId)
      ensures ok ==> undoStack == [c] + old(undoStack) && redoStack == []
      ensures !ok ==> undoStack == old(undoStack) && redoStack == old(redoStack)
    {
      ok := ExecuteCommand(c, freshId);
      StackNotTouched(c, this);
      Record(c, ok);
    }

    /** The bookkeeping of `push` once the command has run. */
    method Record(c: Command, ok: bool)
      modifies this
      ensures ok ==> undoStack == [c] + old(undoStack) && redoStack == []
      ensures !ok ==> undoStack == old(undoStack) && redoStack == old(redoStack)
    {
      if ok {
        undoStack, redoStack := [c] + undoStack, [];
      }
    }

    function CanUndo(): (r: bool)
      reads this
      ensures r <==> undoStack != []
    {
      |undoStack| > 0
    }

    function CanRedo(): (r: bool)
      reads this
      ensures r <==> redoStack != []
    {
      |redoStack| > 0
    }

    /** `undo`: the newest command is undone and moves to the redo stack. */
    method Undo() returns (ok: bool)
      requires undoStack != [] ==> ReadyToUndo(undoStack[0])
      modifies this, if undoStack != [] then Touched(undoStack[0]) else {}
      ensures old(undoStack) == [] ==> ok && undoStack == [] && redoStack == old(redoStack)
      ensures ok ==> |undoStack| + |redoStack| == old(|undoStack| + |redoStack|)
      ensures old(undoStack) != [] ==>
        (Undone(old(undoStack[0]), ok, old(Moved(undoStack[0])))
         && undoStack == old(undoStack[1..])
         && redoStack == (if ok then [old(undoStack[0])] + old(redoStack) else old(redoStack)))
    {
      if !CanUndo() {
        return true;
      }
      var c := undoStack[0];
      ok := UndoCommand(c);
      StackNotTouched(c, this);
      undoStack, redoStack := undoStack[1..], if ok then [c] + redoStack else redoStack;
    }

    /** `redo`: the newest undone command runs again and moves back to the undo stack. */
    method Redo(freshId: nat) returns (ok: bool)
      requires redoStack != [] ==> ReadyToExecute(redoStack[0])
      modifies this, if redoStack != [] then Touched(redoStack[0]) else {}
      ensures old(redoStack) == [] ==> ok && redoStack == [] && undoStack == old(undoStack)
      ensures ok ==> |undoStack| + |redoStack| == old(|undoStack| + |redoStack|)
      ensures old(redoStack) != [] ==>
        (Executed(old(redoStack[0]), ok, freshId)
         && redoStack == old(redoStack[1..])
         && undoStack == (if ok then [old(redoStack[0])] + old(undoStack) else old(undoStack)))
    {
      if !CanRedo() {
        return true;
      }
      var c := redoStack[0];
      ok := ExecuteCommand(c, freshId);
      StackNotTouched(c, this);
      undoStack, redoStack := if ok then [c] + undoStack else undoStack, redoStack[1..];
    }

    /** `clear`. */
    method Clear()
      modifies this
      ensures undoStack == [] && redoStack == []
    {
      undoStack := [];
      redoStack := [];
    }
  }
}
