/**
 * The command-line todo manager's in-memory list: adding, completing,
 * deleting and clearing todos, and the done/total summary. Persistence to
 * the JSON file, console output and argument parsing are outside this model;
 * ids and clock readings are parameters.
 */
module TodoList {
  import opened Common

  /** A todo; `completedAt` is `None` until the todo is completed. */
  datatype Todo = Todo(id: int, text: string, completed: bool, createdAt: nat, completedAt: Option<nat>)

  /** What `completeTodo` reports. */
  datatype CompleteOutcome = NotFound | AlreadyDone | Done

  /**
   * The characters `String.prototype.trim` strips: the ECMAScript white
   * space and line terminator characters.
   */
  predicate IsWhitespace(c: char)
  {
    c == '\t' || c == '\n' || c == '\U{000B}' || c == '\U{000C}' || c == '\r' || c == ' ' ||
    c == '\U{00A0}' || c == '\U{1680}' || ('\U{2000}' <= c <= '\U{200A}') ||
    c == '\U{2028}' || c == '\U{2029}' || c == '\U{202F}' || c == '\U{205F}' ||
    c == '\U{3000}' || c == '\U{FEFF}'
  }

  /** Strips leading white space: what is left is a suffix of `s` that starts with a visible character. */
  function TrimStart(s: string): (r: string)
    ensures |r| <= |s| && r == s[|s| - |r|..]
    ensures forall i :: 0 <= i < |s| - |r| ==> IsWhitespace(s[i])
    ensures r != [] ==> !IsWhitespace(r[0])
  {
    if s != [] && IsWhitespace(s[0]) then TrimStart(s[1..]) else s
  }

  /** Strips trailing white space: what is left is a prefix of `s` that ends with a visible character. */
  function TrimEnd(s: string): (r: string)
    ensures |r| <= |s| && r == s[..|r|]
    ensures forall i :: |r| <= i < |s| ==> IsWhitespace(s[i])
    ensures r != [] ==> !IsWhitespace(r[|r| - 1])
  {
    if s != [] && IsWhitespace(s[|s| - 1]) then TrimEnd(s[..|s| - 1]) else s
  }

  /** `r` is the stretch of `s` from position `a` with only white space around it. */
  ghost predicate StripsTo(s: string, r: string, a: int)
  {
    && 0 <= a && a + |r| <= |s| && r == s[a..a + |r|]
    && (forall i :: 0 <= i < a ==> IsWhitespace(s[i]))
    && (forall i :: a + |r| <= i < |s| ==> IsWhitespace(s[i]))
  }

  /**
   * `s.trim()`: the middle of `s` with the white space at both ends removed;
   * it is empty exactly when `s` is nothing but white space.
   */
  function Trim(s: string): (r: string)
    ensures exists a :: StripsTo(s, r, a)
    ensures r != [] ==> !IsWhitespace(r[0]) && !IsWhitespace(r[|r| - 1])
    ensures r == [] <==> forall i :: 0 <= i < |s| ==> IsWhitespace(s[i])
  {
    var t := TrimStart(s);
    var r := TrimEnd(t);
    assert StripsTo(s, r, |s| - |t|) by {
      forall i | |s| - |t| + |r| <= i < |s| ensures IsWhitespace(s[i]) {
        assert s[i] == t[i - (|s| - |t|)];
      }
    }
    r
  }

  /** Trimming is idempotent. */
  lemma TrimIdempotent(s: string)
    ensures Trim(Trim(s)) == Trim(s)
  {
  }

  predicate IsDone(t: Todo) { t.completed }

  predicate IsPending(t: Todo) { !t.completed }

  /** `todos.filter(t => t.completed)`. */
  function Completed(todos: seq<Todo>): (r: seq<Todo>)
    ensures forall t :: t in r <==> t in todos && t.completed
    ensures SubseqOf(r, todos)
  {
    Filter(todos, IsDone)
  }

  /** `todos.filter(t => !t.completed)`: the list `clearCompleted` keeps. */
  function Pending(todos: seq<Todo>): (r: seq<Todo>)
    ensures forall t :: t in r <==> t in todos && !t.completed
    ensures SubseqOf(r, todos)
  {
    Filter(todos, IsPending)
  }

  /** Every todo is either completed or pending. */
  lemma CompletedPlusPending(todos: seq<Todo>)
    ensures |Completed(todos)| + |Pending(todos)| == |todos|
  {
    FilterPartition(todos, IsDone, IsPending);
  }

  /** With nothing completed, clearing keeps the whole list. */
  lemma NothingCompletedKeepsAll(todos: seq<Todo>)
    requires |Completed(todos)| == 0
    ensures Pending(todos) == todos
  {
    FilterKeepsAll(todos, IsPending);
  }

  /**
   * The summary `listTodos` prints: the number of completed todos and the
   * total, or nothing for an empty list ("No todos yet").
   */
  function Summary(todos: seq<Todo>): (r: Option<(nat, nat)>)
    ensures r.None? <==> todos == []
    ensures r.Some? ==> r.value.0 <= r.value.1 == |todos|
    ensures r.Some? ==> r.value.0 == |todos| - |Pending(todos)|
  {
    CompletedPlusPending(todos);
    if todos == [] then None else Some((|Completed(todos)|, |todos|))
  }

  /** The index `completeTodo` and `deleteTodo` find: the first todo with this id, or -1. */
  function IndexOfTodo(todos: seq<Todo>, id: int): (k: int)
    ensures -1 <= k < |todos|
    ensures 0 <= k ==> todos[k].id == id && forall j :: 0 <= j < k ==> todos[j].id != id
    ensures k == -1 <==> forall j :: 0 <= j < |todos| ==> todos[j].id != id
  {
    FindIndex(todos, (t: Todo) => t.id == id)
  }

  /** The `TodoApp` object with its `todos` field. */
  class TodoApp {
    var todos: seq<Todo>

    /**
     * Construction followed by `loadTodos`: the saved list, or an empty list
     * when the file could not be read or parsed (`saved == None`).
     */
    constructor (saved: Option<seq<Todo>>)
      ensures todos == if saved.Some? then saved.value else []
    {
      todos := if saved.Some? then saved.value else [];
    }

    /**
     * `addTodo`: refuses empty or blank text; otherwise appends one pending
     * todo with the trimmed text, leaving the others as they were.
     */
    method AddTodo(text: string, id: int, now: nat) returns (added: bool)
      modifies this
      ensures added <==> exists i :: 0 <= i < |text| && !IsWhitespace(text[i])
      ensures !added ==> todos == old(todos)
      ensures added ==> todos == old(todos) + [Todo(id, Trim(text), false, now, None)]
      ensures added ==> Trim(text) != [] && todos[..|old(todos)|] == old(todos)
    {
      if text == "" || Trim(text) == "" {
        return false;
      }
      var todo := Todo(id, Trim(text), false, now, None);
      todos := todos + [todo];
      return true;
    }

    /**
     * `completeTodo`: nothing changes when no todo has the id or the first
     * one that has it is already done; otherwise that todo alone is marked
     * completed.
     */
    method CompleteTodo(id: int, now: nat) returns (outcome: CompleteOutcome)
      modifies this
      ensures var k := IndexOfTodo(old(todos), id);
        outcome == (if k < 0 then NotFound else if old(todos)[k].completed then AlreadyDone else Done)
      ensures outcome != Done ==> todos == old(todos)
      ensures outcome == Done ==>
        var k := IndexOfTodo(old(todos), id);
        && 0 <= k
        && todos == old(todos)[k := old(todos)[k].(completed := true, completedAt := Some(now))]
      ensures |todos| == |old(todos)|
      ensures forall j :: 0 <= j < |todos| && todos[j] != old(todos)[j] ==> j == IndexOfTodo(old(todos), id)
    {
      var k := IndexOfTodo(todos, id);
      if k < 0 {
        return NotFound;
      }
      if todos[k].completed {
        return AlreadyDone;
      }
      todos := todos[k := todos[k].(completed := true, completedAt := Some(now))];
      return Done;
    }

    /**
     * `deleteTodo`: nothing changes when no todo has the id; otherwise the
     * first todo with it is spliced out and the rest keep their order.
     */
    method DeleteTodo(id: int) returns (deleted: Option<Todo>)
      modifies this
      ensures deleted.None? <==> IndexOfTodo(old(todos), id) == -1
      ensures deleted.None? ==> todos == old(todos)
      ensures deleted.Some? ==>
        var k := IndexOfTodo(old(todos), id);
        && 0 <= k
        && deleted.value == old(todos)[k]
        && todos == old(todos)[..k] + old(todos)[k + 1..]
        && |todos| == |old(todos)| - 1
    {
      var k := IndexOfTodo(todos, id);
      if k == -1 {
        return None;
      }
      var todo := todos[k];
      todos := todos[..k] + todos[k + 1..];
      return Some(todo);
    }

    /**
     * `clearCompleted`: keeps only the pending todos, in order, and reports
     * how many completed ones it dropped; with none completed nothing changes.
     */
    method ClearCompleted() returns (cleared: nat)
      modifies this
      ensures cleared == |Completed(old(todos))|
      ensures todos == Pending(old(todos))
      ensures cleared == 0 ==> todos == old(todos)
      ensures |todos| == |old(todos)| - cleared
      ensures forall t :: t in todos ==> !t.completed
    {
      CompletedPlusPending(todos);
      var completedCount := |Completed(todos)|;
      if completedCount == 0 {
        NothingCompletedKeepsAll(todos);
        return 0;
      }
      todos := Pending(todos);
      return completedCount;
    }
  }
}
