/** The todo list component: the text being typed (`task`) and the list of todos. Adding copies
    the list and pushes a new todo; deleting filters by id; completing flips one flag by id.
    The clock that supplies a new todo's id is a parameter. */
module TodoList {
  import Seqs
  import opened JsArrays

  /** A todo: its text, whether it is done, and its id. */
  datatype Todo = Todo(value: string, isCompleted: bool, id: int)

  /** The characters `String.prototype.trim` removes: the ECMAScript white space and line
      terminator characters. */
  predicate IsWhiteSpace(c: char) {
    c == '\t' || c == '\n' || c == '\U{B}' || c == '\U{C}' || c == '\r' || c == ' '
    || c == '\U{A0}' || c == '\U{1680}' || ('\U{2000}' <= c <= '\U{200A}')
    || c == '\U{2028}' || c == '\U{2029}' || c == '\U{202F}' || c == '\U{205F}'
    || c == '\U{3000}' || c == '\U{FEFF}'
  }

  function TrimStart(s: string): string {
    if |s| > 0 && IsWhiteSpace(s[0]) then TrimStart(s[1..]) else s
  }

  function TrimEnd(s: string): string {
    if |s| > 0 && IsWhiteSpace(s[|s| - 1]) then TrimEnd(s[..|s| - 1]) else s
  }

  /** `task.trim()`. */
  function Trim(s: string): string {
    TrimEnd(TrimStart(s))
  }

  /** Every character is white space. */
  predicate IsBlank(s: string) {
    forall i :: 0 <= i < |s| ==> IsWhiteSpace(s[i])
  }

  lemma {:induction false} TrimStartEmpty(s: string)
    ensures TrimStart(s) == [] <==> IsBlank(s)
    ensures TrimStart(s) != [] ==> !IsWhiteSpace(TrimStart(s)[0])
    decreases |s|
  {
    if |s| > 0 && IsWhiteSpace(s[0]) {
      TrimStartEmpty(s[1..]);
      if IsBlank(s[1..]) {
        forall i | 0 <= i < |s| ensures IsWhiteSpace(s[i]) {
          if i > 0 {
            assert s[i] == s[1..][i - 1];
          }
        }
      }
      if IsBlank(s) {
        forall i | 0 <= i < |s[1..]| ensures IsWhiteSpace(s[1..][i]) {
          assert s[1..][i] == s[i + 1];
        }
      }
    }
  }

  lemma {:induction false} TrimEndKeepsFirst(s: string)
    requires |s| > 0 && !IsWhiteSpace(s[0])
    ensures TrimEnd(s) != [] && TrimEnd(s)[0] == s[0]
    decreases |s|
  {
    if IsWhiteSpace(s[|s| - 1]) {
      TrimEndKeepsFirst(s[..|s| - 1]);
    }
  }

  /** `!task.trim()` holds exactly when the task is empty or white space only. */
  lemma TrimEmptyIffBlank(s: string)
    ensures Trim(s) == [] <==> IsBlank(s)
  {
    TrimStartEmpty(s);
    if TrimStart(s) != [] {
      TrimEndKeepsFirst(TrimStart(s));
    }
  }

  /** `handleDelete(id)`: the todos whose id differs. */
  function KeepsTodo(id: int): Todo -> bool {
    (todo: Todo) => todo.id != id
  }

  function Delete(todos: seq<Todo>, id: int): seq<Todo> {
    Seqs.Filter(todos, KeepsTodo(id))
  }

  /** `handleComplete(id)`: on each todo with the id, `isCompleted` negated. */
  function Toggle(todo: Todo, id: int): Todo {
    if todo.id == id then todo.(isCompleted := !todo.isCompleted) else todo
  }

  function Complete(todos: seq<Todo>, id: int): seq<Todo> {
    seq(|todos|, i requires 0 <= i < |todos| => Toggle(todos[i], id))
  }

  /** Delete drops every todo with the id, keeps every other todo with its multiplicity, and keeps
      the survivors in their order. */
  lemma DeleteRemovesId(todos: seq<Todo>, id: int)
    ensures forall i :: 0 <= i < |Delete(todos, id)| ==> Delete(todos, id)[i].id != id
    ensures forall t: Todo :: t.id != id ==> multiset(Delete(todos, id))[t] == multiset(todos)[t]
    ensures Seqs.IsSubsequence(Delete(todos, id), todos)
  {
    var keep := KeepsTodo(id);
    Seqs.FilterSatisfies(todos, keep);
    Seqs.FilterIsSubsequence(todos, keep);
    forall t: Todo | t.id != id
      ensures multiset(Seqs.Filter(todos, keep))[t] == multiset(todos)[t]
    {
      Seqs.FilterCount(todos, keep, t);
    }
  }

  /** Delete leaves the list equal exactly when no todo has the id. */
  lemma DeleteAbsentIsNoOp(todos: seq<Todo>, id: int)
    ensures Delete(todos, id) == todos <==> forall i :: 0 <= i < |todos| ==> todos[i].id != id
  {
    Seqs.FilterKeepsAll(todos, KeepsTodo(id));
  }

  /** Complete keeps the length; it flips `isCompleted` on the todos with the id and keeps their
      value and id; every other todo is unchanged. */
  lemma CompleteFlipsMatching(todos: seq<Todo>, id: int)
    ensures |Complete(todos, id)| == |todos|
    ensures forall i :: 0 <= i < |todos| && todos[i].id == id ==>
              Complete(todos, id)[i].isCompleted == !todos[i].isCompleted
              && Complete(todos, id)[i].value == todos[i].value
              && Complete(todos, id)[i].id == id
    ensures forall i :: 0 <= i < |todos| && todos[i].id != id ==> Complete(todos, id)[i] == todos[i]
  {
  }

  /** Completing the same id twice restores the list. */
  lemma CompleteTwiceRestores(todos: seq<Todo>, id: int)
    ensures Complete(Complete(todos, id), id) == todos
  {
    var twice := Complete(Complete(todos, id), id);
    assert forall i :: 0 <= i < |todos| ==> twice[i] == todos[i];
  }

  /** Complete leaves the list equal exactly when no todo has the id. */
  lemma CompleteAbsentIsNoOp(todos: seq<Todo>, id: int)
    ensures Complete(todos, id) == todos <==> forall i :: 0 <= i < |todos| ==> todos[i].id != id
  {
    if Complete(todos, id) == todos {
      forall i | 0 <= i < |todos| ensures todos[i].id != id {
        assert Complete(todos, id)[i] == todos[i];
      }
    }
  }

  /** The component's state. */
  class TodoApp {
    var task: string
    var todos: seq<Todo>

    /** The initial state; the list read back from local storage is a parameter. */
    constructor (stored: seq<Todo>)
      ensures task == "" && todos == stored
    {
      task := "";
      todos := stored;
    }

    /** `handleChange`: the input's text becomes the task. */
    method HandleChange(text: string)
      modifies this
      ensures task == text && todos == old(todos)
    {
      task := text;
    }

    /** `handleAddTask`, with `now` the clock reading used as the id. A blank task changes
        nothing; otherwise the untrimmed task is appended as an open todo and the task is
        cleared. */
    method HandleAddTask(now: int)
      modifies this
      ensures IsBlank(old(task)) ==> task == old(task) && todos == old(todos)
      ensures !IsBlank(old(task)) ==>
                todos == old(todos) + [Todo(old(task), false, now)] && task == ""
    {
      TrimEmptyIffBlank(task);
      if Trim(task) == [] {
        return;
      }
      var newTodo := new JsArray(todos);
      newTodo.Push(Todo(task, false, now));
      todos := newTodo.elems;
      task := "";
    }

    /** `handleKeyDown(e)` with `key == e.key`: Enter adds the task, any other key does
        nothing. */
    method HandleKeyDown(key: string, now: int)
      modifies this
      ensures key != "Enter" ==> task == old(task) && todos == old(todos)
      ensures key == "Enter" && IsBlank(old(task)) ==> task == old(task) && todos == old(todos)
      ensures key == "Enter" && !IsBlank(old(task)) ==>
                todos == old(todos) + [Todo(old(task), false, now)] && task == ""
    {
      if key == "Enter" {
        HandleAddTask(now);
      }
    }

    method HandleDelete(id: int)
      modifies this
      ensures todos == Delete(old(todos), id) && task == old(task)
    {
      todos := Delete(todos, id);
    }

    method HandleComplete(id: int)
      modifies this
      ensures todos == Complete(old(todos), id) && task == old(task)
    {
      todos := Complete(todos, id);
    }
  }
}
