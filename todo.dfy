/** The todo list of `app/page.js`: a client component whose handlers
    update five pieces of state. The list is rebuilt by `filter` and `map`
    on every change; an edit remembers the position it started from. */
module Todo {
  import opened Js

  /** `todos.filter((_, i) => i !== index)`. */
  function Filtered(todos: seq<string>, index: int): (r: seq<string>)
    ensures 0 <= index < |todos| ==> r == todos[..index] + todos[index + 1..]
    ensures !(0 <= index < |todos|) ==> r == todos
    decreases |todos|
  {
    if todos == [] then []
    else
      var rest := Filtered(todos[1..], index - 1);
      assert index == 0 ==> rest == todos[1..];
      assert 0 < index < |todos| ==> todos[..index] == [todos[0]] + todos[1..][..index - 1];
      assert 0 < index < |todos| ==> todos[index + 1..] == todos[1..][index - 1 + 1..];
      assert index < 0 || index >= |todos| ==> todos == [todos[0]] + todos[1..];
      (if index == 0 then [] else [todos[0]]) + rest
  }

  /** `todos.map((todo, index) => index === currentIndex ? item : todo)`;
      a `null` index equals no position. */
  function Mapped(todos: seq<string>, currentIndex: Option<int>, item: string): (r: seq<string>)
    ensures currentIndex.Some? && 0 <= currentIndex.value < |todos| ==> r == todos[currentIndex.value := item]
    ensures !(currentIndex.Some? && 0 <= currentIndex.value < |todos|) ==> r == todos
  {
    seq(|todos|, i requires 0 <= i < |todos| => if currentIndex == Some(i) then item else todos[i])
  }

  class TodoList {
    var todos: seq<string>
    var newTodo: string
    var isEditing: bool
    var currentTodo: string
    var currentIndex: Option<int>

    /** Editing exactly when a position is remembered; a position is never
        negative, though a removal may leave it past the end. */
    predicate Valid()
      reads this
    {
      && (isEditing <==> currentIndex.Some?)
      && (currentIndex.Some? ==> currentIndex.value >= 0)
    }

    /** The initial `useState` values. */
    constructor ()
      ensures Valid()
      ensures todos == [] && newTodo == "" && !isEditing && currentTodo == "" && currentIndex == None
    {
      todos := [];
      newTodo := "";
      isEditing := false;
      currentTodo := "";
      currentIndex := None;
    }

    /** The input's `onChange`: the text goes to the edit buffer while
        editing, to the new-item buffer otherwise. */
    method Type(text: string)
      requires Valid()
      modifies this
      ensures Valid()
      ensures isEditing ==> currentTodo == text && newTodo == old(newTodo)
      ensures !isEditing ==> newTodo == text && currentTodo == old(currentTodo)
      ensures todos == old(todos) && isEditing == old(isEditing) && currentIndex == old(currentIndex)
    {
      if isEditing {
        currentTodo := text;
      } else {
        newTodo := text;
      }
    }

    /** `addTodo`: a non-blank entry is appended as typed (untrimmed) and
        the buffer cleared; a blank one changes nothing. */
    method AddTodo()
      requires Valid()
      modifies this
      ensures Valid()
      ensures !Blank(old(newTodo)) ==> todos == old(todos) + [old(newTodo)] && newTodo == ""
      ensures Blank(old(newTodo)) ==> todos == old(todos) && newTodo == old(newTodo)
      ensures isEditing == old(isEditing) && currentTodo == old(currentTodo) && currentIndex == old(currentIndex)
    {
      TrimEmptyIffBlank(newTodo);
      if Trim(newTodo) != "" {
        todos := todos + [newTodo];
        newTodo := "";
      }
    }

    /** `removeTodo(index)`: the item at `index` goes, the rest keep their
        order; an index off the list changes nothing. An edit in progress
        keeps its remembered position. */
    method RemoveTodo(index: int)
      requires Valid()
      modifies this
      ensures Valid()
      ensures todos == Filtered(old(todos), index)
      ensures 0 <= index < |old(todos)| ==> |todos| == |old(todos)| - 1
      ensures newTodo == old(newTodo) && isEditing == old(isEditing)
      ensures currentTodo == old(currentTodo) && currentIndex == old(currentIndex)
    {
      todos := Filtered(todos, index);
    }

    /** `editTodo(index)`, called from the Edit button of a listed item. */
    method EditTodo(index: int)
      requires Valid() && 0 <= index < |todos|
      modifies this
      ensures Valid()
      ensures todos == old(todos) && newTodo == old(newTodo)
      ensures isEditing && currentTodo == todos[index] && currentIndex == Some(index)
    {
      isEditing := true;
      currentTodo := todos[index];
      currentIndex := Some(index);
    }

    /** `updateTodo`: a non-blank edit replaces the item at the remembered
        position (if that is still on the list) and ends editing; a blank
        one changes nothing. */
    method UpdateTodo()
      requires Valid()
      modifies this
      ensures Valid()
      ensures !Blank(old(currentTodo)) ==>
        && todos == Mapped(old(todos), old(currentIndex), old(currentTodo))
        && !isEditing && currentTodo == "" && currentIndex == None
      ensures Blank(old(currentTodo)) ==>
        todos == old(todos) && isEditing == old(isEditing) && currentTodo == old(currentTodo) && currentIndex == old(currentIndex)
      ensures |todos| == |old(todos)| && newTodo == old(newTodo)
    {
      TrimEmptyIffBlank(currentTodo);
      if Trim(currentTodo) != "" {
        todos := Mapped(todos, currentIndex, currentTodo);
        isEditing := false;
        currentTodo := "";
        currentIndex := None;
      }
    }

    /** The action button: Update while editing, Add otherwise. */
    method Submit()
      requires Valid()
      modifies this
      ensures Valid()
      ensures old(isEditing) && !Blank(old(currentTodo)) ==>
        && todos == Mapped(old(todos), old(currentIndex), old(currentTodo))
        && !isEditing && currentTodo == "" && currentIndex == None && newTodo == old(newTodo)
      ensures !old(isEditing) && !Blank(old(newTodo)) ==>
        && todos == old(todos) + [old(newTodo)] && newTodo == ""
        && !isEditing && currentTodo == old(currentTodo) && currentIndex == None
      ensures (if old(isEditing) then Blank(old(currentTodo)) else Blank(old(newTodo))) ==>
        && todos == old(todos) && newTodo == old(newTodo) && isEditing == old(isEditing)
        && currentTodo == old(currentTodo) && currentIndex == old(currentIndex)
    {
      if isEditing {
        UpdateTodo();
      } else {
        AddTodo();
      }
    }
  }

  /** Removing an item above the one being edited shifts the list under the
      remembered position: the update then lands on the item after the
      edited one, which itself stays as it was. */
  lemma {:induction false} RemoveBeforeEditShiftsUpdate(todos: seq<string>, removed: int, edited: int, item: string)
    requires 0 <= removed < edited < |todos|
    ensures var after := Mapped(Filtered(todos, removed), Some(edited), item);
      && |after| == |todos| - 1
      && after[edited - 1] == todos[edited]
      && (edited + 1 < |todos| ==> after[edited] == item)
      && (edited + 1 == |todos| ==> after == Filtered(todos, removed))
  {
    var rest := Filtered(todos, removed);
    assert rest[edited - 1] == todos[edited];
    if edited + 1 < |todos| {
      assert rest[edited] == todos[edited + 1];
    }
  }

  /** A walk through the page: three items, edit the second, remove the
      first, then save the edit. The edit meant for `b` overwrites `c`. */
  method EditAfterRemoval() returns (todos: seq<string>)
    ensures todos == ["b", "z"]
  {
    assert !IsWhitespace('a') && !IsWhitespace('b') && !IsWhitespace('c') && !IsWhitespace('z');
    assert "a"[0] == 'a' && "b"[0] == 'b' && "c"[0] == 'c' && "z"[0] == 'z';
    var page := new TodoList();
    page.Type("a");
    page.AddTodo();
    page.Type("b");
    page.AddTodo();
    page.Type("c");
    page.AddTodo();
    assert page.todos == ["a", "b", "c"];
    page.EditTodo(1);
    page.RemoveTodo(0);
    assert page.todos == ["b", "c"];
    page.Type("z");
    page.Submit();
    todos := page.todos;
  }
}
