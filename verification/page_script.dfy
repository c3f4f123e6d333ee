/**
 * The script of the to-do page the mock server serves at `/`: a list of
 * tasks held by the page, an id counter, the title input and the error
 * message. Only the state changes of `addTask`, `toggleTask` and
 * `deleteTask` are modelled; what `renderTasks` draws is not.
 */
module PageScript {
  import opened Wrappers

  /** A task object of the page script: `{ id, titulo, status }`. */
  datatype PageTask = PageTask(id: int, titulo: string, status: string)

  const Pending: string := "PENDING"
  const Done: string := "DONE"
  const TitleRequired: string := "El t\U{ED}tulo es obligatorio"

  // ---------------------------------------------------------------------------
  // String.prototype.trim
  // ---------------------------------------------------------------------------

  /** The white space and line terminators JavaScript's `trim` removes. */
  predicate IsJsSpace(c: char)
  {
    || c == '\t' || c == '\n' || c == '\U{B}' || c == '\U{C}' || c == '\r' || c == ' '
    || c == '\U{A0}' || c == '\U{1680}' || ('\U{2000}' <= c <= '\U{200A}')
    || c == '\U{2028}' || c == '\U{2029}' || c == '\U{202F}' || c == '\U{205F}'
    || c == '\U{3000}' || c == '\U{FEFF}'
  }

  /** Drops the leading white space: what is left is a suffix that starts with something else. */
  function TrimStart(s: string): (r: string)
    ensures |r| <= |s| && r == s[|s| - |r|..]
    ensures forall i :: 0 <= i < |s| - |r| ==> IsJsSpace(s[i])
    ensures r != [] ==> !IsJsSpace(r[0])
  {
    if s != [] && IsJsSpace(s[0]) then TrimStart(s[1..]) else s
  }

  /** Drops the trailing white space: what is left is a prefix that ends with something else. */
  function TrimEnd(s: string): (r: string)
    ensures |r| <= |s| && r == s[..|r|]
    ensures forall i :: |r| <= i < |s| ==> IsJsSpace(s[i])
    ensures r != [] ==> !IsJsSpace(r[|r| - 1])
  {
    if s != [] && IsJsSpace(s[|s| - 1]) then TrimEnd(s[..|s| - 1]) else s
  }

  /** `r` is the slice of `s` starting at `k`, and every character of `s` outside it is white space. */
  predicate SliceAmidSpace(s: string, r: string, k: nat)
  {
    && k + |r| <= |s| && r == s[k..k + |r|]
    && (forall i :: 0 <= i < k ==> IsJsSpace(s[i]))
    && (forall i :: k + |r| <= i < |s| ==> IsJsSpace(s[i]))
  }

  /**
   * `String.prototype.trim`: a slice of the input that neither starts nor
   * ends with white space, everything outside it being white space.
   */
  function Trim(s: string): (r: string)
    ensures |r| <= |s|
    ensures exists k :: SliceAmidSpace(s, r, k)
    ensures r != [] ==> !IsJsSpace(r[0]) && !IsJsSpace(r[|r| - 1])
  {
    TrimSlice(s);
    TrimEnd(TrimStart(s))
  }

  /** What `trim` keeps is the slice after the leading white space, with only white space after it. */
  lemma TrimSlice(s: string)
    ensures SliceAmidSpace(s, TrimEnd(TrimStart(s)), |s| - |TrimStart(s)|)
  {
    var start := TrimStart(s);
    var r := TrimEnd(start);
    var k := |s| - |start|;
    assert start == s[k..];
    assert r == start[..|r|];
    assert forall i :: 0 <= i < |r| ==> r[i] == s[k + i];
    assert r == s[k..k + |r|];
    assert forall i :: 0 <= i < k ==> IsJsSpace(s[i]);
    forall i | k + |r| <= i < |s| ensures IsJsSpace(s[i]) {
      assert |r| <= i - k < |start|;
      assert s[i] == start[i - k];
    }
    assert SliceAmidSpace(s, r, k);
  }

  /** Trimming leaves nothing exactly when the text is all white space. */
  lemma TrimEmptyIffBlank(s: string)
    ensures Trim(s) == [] <==> forall i :: 0 <= i < |s| ==> IsJsSpace(s[i])
  {
    var start := TrimStart(s);
    if Trim(s) == [] {
      assert start == [];
    } else {
      var r := Trim(s);
      assert start != [];
      assert !IsJsSpace(start[0]);
      assert s[|s| - |start|] == start[0];
    }
  }

  /** Trimming twice trims nothing more. */
  lemma TrimIdempotent(s: string)
    ensures Trim(Trim(s)) == Trim(s)
  {
  }

  // ---------------------------------------------------------------------------
  // find, findIndex and the status toggle
  // ---------------------------------------------------------------------------

  /** `tasks.findIndex(t => t.id === id)`, with `None` for -1: the first position holding that id. */
  function IndexOf(tasks: seq<PageTask>, id: int): (r: Option<nat>)
    ensures r.Some? ==> r.value < |tasks| && tasks[r.value].id == id
    ensures r.Some? ==> forall j :: 0 <= j < r.value ==> tasks[j].id != id
    ensures r.None? ==> forall j :: 0 <= j < |tasks| ==> tasks[j].id != id
  {
    if tasks == [] then None
    else if tasks[0].id == id then Some(0)
    else match IndexOf(tasks[1..], id)
      case None => None
      case Some(k) => Some(k + 1)
  }

  /** The status `toggleTask` gives: PENDING becomes DONE, anything else becomes PENDING. */
  function Toggled(status: string): (r: string)
    ensures status == Pending ==> r == Done
    ensures status != Pending ==> r == Pending
  {
    if status == Pending then Done else Pending
  }

  /** Toggling twice restores the two statuses the page uses, and settles any other on PENDING. */
  lemma ToggledTwice(status: string)
    ensures status == Pending || status == Done ==> Toggled(Toggled(status)) == status
    ensures status != Pending && status != Done ==> Toggled(Toggled(status)) == Done
  {
  }

  /** Ids strictly increasing along the list: each id is on at most one task. */
  predicate IncreasingIds(tasks: seq<PageTask>)
  {
    forall i, j :: 0 <= i < j < |tasks| ==> tasks[i].id < tasks[j].id
  }

  /** With increasing ids, the task `findIndex` finds is the only one with that id. */
  lemma {:induction false} IndexOfUnique(tasks: seq<PageTask>, id: int, k: nat)
    requires IncreasingIds(tasks)
    requires 0 <= k < |tasks| && tasks[k].id == id
    ensures IndexOf(tasks, id) == Some(k)
  {
    if k > 0 {
      assert tasks[0].id < tasks[k].id;
      assert tasks[1..][k - 1] == tasks[k];
      IndexOfUnique(tasks[1..], id, k - 1);
    }
  }

  /** The list with position `k` spliced out, as `tasks.splice(k, 1)` leaves it. */
  function RemoveAt(tasks: seq<PageTask>, k: nat): (r: seq<PageTask>)
    requires k < |tasks|
    ensures |r| == |tasks| - 1
    ensures forall i :: 0 <= i < |r| ==> r[i] == if i < k then tasks[i] else tasks[i + 1]
  {
    tasks[..k] + tasks[k + 1..]
  }

  /** Splicing keeps the ids increasing. */
  lemma RemoveAtIncreasing(tasks: seq<PageTask>, k: nat)
    requires IncreasingIds(tasks) && k < |tasks|
    ensures IncreasingIds(RemoveAt(tasks, k))
  {
    var r := RemoveAt(tasks, k);
    forall i, j | 0 <= i < j < |r| ensures r[i].id < r[j].id {
      var i' := if i < k then i else i + 1;
      var j' := if j < k then j else j + 1;
      assert r[i] == tasks[i'] && r[j] == tasks[j'];
    }
  }

  /** With increasing ids, no task left after the splice has the id of the one spliced out. */
  lemma RemoveAtDropsId(tasks: seq<PageTask>, k: nat)
    requires IncreasingIds(tasks) && k < |tasks|
    ensures forall i :: 0 <= i < |RemoveAt(tasks, k)| ==> RemoveAt(tasks, k)[i].id != tasks[k].id
  {
    var r := RemoveAt(tasks, k);
    forall i | 0 <= i < |r| ensures r[i].id != tasks[k].id {
      var i' := if i < k then i else i + 1;
      assert r[i] == tasks[i'];
    }
  }

  /** The tasks left after the splice are the old ones except at position `k`. */
  lemma RemoveAtMembers(tasks: seq<PageTask>, k: nat)
    requires k < |tasks|
    ensures forall t :: t in RemoveAt(tasks, k) ==> t in tasks
    ensures forall j :: 0 <= j < |tasks| && j != k ==> tasks[j] in RemoveAt(tasks, k)
  {
    var r := RemoveAt(tasks, k);
    forall t | t in r ensures t in tasks {
      var i :| 0 <= i < |r| && r[i] == t;
      var i' := if i < k then i else i + 1;
      assert tasks[i'] == t;
    }
    forall j | 0 <= j < |tasks| && j != k ensures tasks[j] in r {
      if j < k {
        assert r[j] == tasks[j];
      } else {
        assert r[j - 1] == tasks[j];
      }
    }
  }

  /** Splicing out the task with a given id keeps the ids increasing, drops that id and keeps every other task. */
  lemma RemoveAtKeepsOthers(tasks: seq<PageTask>, k: nat)
    requires IncreasingIds(tasks) && k < |tasks|
    ensures IncreasingIds(RemoveAt(tasks, k))
    ensures forall i :: 0 <= i < |RemoveAt(tasks, k)| ==> RemoveAt(tasks, k)[i].id != tasks[k].id
    ensures forall t :: t in RemoveAt(tasks, k) ==> t in tasks
    ensures forall t :: t in tasks && t.id != tasks[k].id ==> t in RemoveAt(tasks, k)
  {
    RemoveAtIncreasing(tasks, k);
    RemoveAtDropsId(tasks, k);
    RemoveAtMembers(tasks, k);
    forall t | t in tasks && t.id != tasks[k].id ensures t in RemoveAt(tasks, k) {
      var j :| 0 <= j < |tasks| && tasks[j] == t;
    }
  }

  // ---------------------------------------------------------------------------
  // The page state
  // ---------------------------------------------------------------------------

  class TodoPage {
    /** `const tasks = []`. */
    var tasks: seq<PageTask>
    /** `let taskIdCounter = 1`. */
    var taskIdCounter: int
    /** The value of the title input. */
    var input: string
    /** Whether the error paragraph is displayed, and its text. */
    var errorVisible: bool
    var errorText: string

    /** Every id was handed out by the counter, in increasing order. */
    ghost predicate Valid()
      reads this
    {
      && taskIdCounter >= 1
      && IncreasingIds(tasks)
      && forall i :: 0 <= i < |tasks| ==> 1 <= tasks[i].id < taskIdCounter
    }

    /** The page as loaded: no tasks, the counter at 1, an empty input, the error hidden. */
    constructor ()
      ensures Valid()
      ensures tasks == [] && taskIdCounter == 1 && input == "" && !errorVisible && errorText == ""
    {
      tasks := [];
      taskIdCounter := 1;
      input := "";
      errorVisible := false;
      errorText := "";
    }

    /** Typing into the title input. */
    method Type(text: string)
      modifies this
      ensures input == text
      ensures tasks == old(tasks) && taskIdCounter == old(taskIdCounter)
      ensures errorVisible == old(errorVisible) && errorText == old(errorText)
    {
      input := text;
    }

    /**
     * `addTask()`: a title that is empty once trimmed shows the error and
     * changes nothing else; otherwise the error is hidden, the trimmed title
     * is appended as a PENDING task under the counter's id, the counter
     * moves on and the input is cleared.
     */
    method AddTask()
      requires Valid()
      modifies this
      ensures Valid()
      ensures Trim(old(input)) == [] ==>
        && errorVisible && errorText == TitleRequired
        && tasks == old(tasks) && taskIdCounter == old(taskIdCounter) && input == old(input)
      ensures Trim(old(input)) != [] ==>
        && !errorVisible && errorText == old(errorText)
        && tasks == old(tasks) + [PageTask(old(taskIdCounter), Trim(old(input)), Pending)]
        && taskIdCounter == old(taskIdCounter) + 1
        && input == ""
    {
      var titulo := Trim(input);
      if titulo == [] {
        errorText := TitleRequired;
        errorVisible := true;
        return;
      }
      errorVisible := false;
      tasks := tasks + [PageTask(taskIdCounter, titulo, Pending)];
      taskIdCounter := taskIdCounter + 1;
      input := "";
    }

    /** `toggleTask(id)`: the task with that id, if any, flips its status; nothing else changes. */
    method ToggleTask(id: int)
      requires Valid()
      modifies this
      ensures Valid()
      ensures IndexOf(old(tasks), id).None? ==> tasks == old(tasks)
      ensures IndexOf(old(tasks), id).Some? ==>
        var k := IndexOf(old(tasks), id).value;
        tasks == old(tasks)[k := old(tasks)[k].(status := Toggled(old(tasks)[k].status))]
      ensures |tasks| == |old(tasks)|
      ensures forall i :: 0 <= i < |tasks| ==> tasks[i].id == old(tasks)[i].id && tasks[i].titulo == old(tasks)[i].titulo
      ensures taskIdCounter == old(taskIdCounter) && input == old(input)
      ensures errorVisible == old(errorVisible) && errorText == old(errorText)
    {
      match IndexOf(tasks, id)
      case None =>
      case Some(k) =>
        tasks := tasks[k := tasks[k].(status := Toggled(tasks[k].status))];
    }

    /** `deleteTask(id)`: the task with that id, if any, is spliced out; afterwards no task has that id. */
    method DeleteTask(id: int)
      requires Valid()
      modifies this
      ensures Valid()
      ensures IndexOf(old(tasks), id).None? ==> tasks == old(tasks)
      ensures IndexOf(old(tasks), id).Some? ==> tasks == RemoveAt(old(tasks), IndexOf(old(tasks), id).value)
      ensures forall i :: 0 <= i < |tasks| ==> tasks[i].id != id
      ensures forall t :: t in old(tasks) && t.id != id ==> t in tasks
      ensures taskIdCounter == old(taskIdCounter) && input == old(input)
      ensures errorVisible == old(errorVisible) && errorText == old(errorText)
    {
      match IndexOf(tasks, id)
      case None =>
      case Some(k) =>
        RemoveAtKeepsOthers(tasks, k);
        tasks := RemoveAt(tasks, k);
    }
  }
}
