/** The task list beside the timer: adding, toggling and clearing tasks, the
    stored list read back at start-up, and the pinned flag. */
module TaskList {
  import opened Wrappers

  datatype Task = Task(id: string, text: string, done: bool)

  /** The characters `String.prototype.trim` removes: the white space and line
      terminators of the ECMAScript language. */
  predicate IsJsSpace(c: char) {
    || c == '\t' || c == '\n' || c == '\U{000B}' || c == '\U{000C}' || c == '\r'
    || c == ' ' || c == '\U{00A0}' || c == '\U{1680}'
    || ('\U{2000}' <= c <= '\U{200A}')
    || c == '\U{2028}' || c == '\U{2029}' || c == '\U{202F}' || c == '\U{205F}'
    || c == '\U{3000}' || c == '\U{FEFF}'
  }

  predicate AllSpace(s: string) {
    forall i :: 0 <= i < |s| ==> IsJsSpace(s[i])
  }

  /** The length of the run of white space that starts `s`. */
  function LeadingSpaces(s: string): (n: nat)
    ensures n <= |s| && AllSpace(s[..n])
    ensures n < |s| ==> !IsJsSpace(s[n])
  {
    if |s| > 0 && IsJsSpace(s[0]) then
      var m := LeadingSpaces(s[1..]);
      assert s[..1 + m] == [s[0]] + s[1..][..m];
      1 + m
    else 0
  }

  /** The length of the run of white space that ends `s`. */
  function TrailingSpaces(s: string): (n: nat)
    ensures n <= |s| && AllSpace(s[|s| - n..])
    ensures n < |s| ==> !IsJsSpace(s[|s| - n - 1])
  {
    if |s| > 0 && IsJsSpace(s[|s| - 1]) then
      var t := s[..|s| - 1];
      var m := TrailingSpaces(t);
      assert s[|s| - (1 + m)..] == t[|t| - m..] + [s[|s| - 1]];
      1 + m
    else 0
  }

  /** `input.trim()`: the slice of `s` left after dropping white space at
      both ends; it neither starts nor ends with white space. */
  function Trim(s: string): (r: string)
    ensures var a := LeadingSpaces(s);
      && a + |r| <= |s| && r == s[a..a + |r|]
      && AllSpace(s[..a]) && AllSpace(s[a + |r|..])
    ensures r == [] || (!IsJsSpace(r[0]) && !IsJsSpace(r[|r| - 1]))
  {
    var a := LeadingSpaces(s);
    var t := s[a..];
    var b := TrailingSpaces(t);
    assert b < |t| ==> !IsJsSpace(t[|t| - b - 1]);
    assert |t| > 0 ==> !IsJsSpace(t[0]);
    assert t[|t| - b..] == s[a + (|t| - b)..];
    t[..|t| - b]
  }

  /** The trimmed text is empty exactly when the input is all white space. */
  lemma TrimBlank(s: string)
    ensures Trim(s) == [] <==> AllSpace(s)
  {
    var a := LeadingSpaces(s);
    var r := Trim(s);
    if r == [] {
      // A non-space after the leading run would survive the trim.
      assert a == |s|;
      forall i | 0 <= i < |s|
        ensures IsJsSpace(s[i])
      {
        assert s[i] == s[..a][i];
      }
    } else {
      assert r[0] == s[a];
    }
  }

  /** A string that neither starts nor ends with white space trims to
      itself; in particular trimming twice is trimming once. */
  lemma TrimTrimmed(s: string)
    requires s == [] || (!IsJsSpace(s[0]) && !IsJsSpace(s[|s| - 1]))
    ensures Trim(s) == s
  {
    if s != [] {
      assert LeadingSpaces(s) == 0;
      assert TrailingSpaces(s) == 0;
    }
  }

  lemma TrimIdempotent(s: string)
    ensures Trim(Trim(s)) == Trim(s)
  {
    TrimTrimmed(Trim(s));
  }

  /** `addTask`: blank input changes nothing; otherwise one new, unfinished
      task with the trimmed text goes at the end and the input is cleared.
      The fresh id stands for `crypto.randomUUID()`. */
  function AddTask(tasks: seq<Task>, input: string, freshId: string): (r: (seq<Task>, string))
    ensures AllSpace(input) ==> r == (tasks, input)
    ensures !AllSpace(input) ==>
      && |r.0| == |tasks| + 1 && r.0[..|tasks|] == tasks
      && r.0[|tasks|] == Task(freshId, Trim(input), false)
      && r.1 == ""
  {
    TrimBlank(input);
    var text := Trim(input);
    if text == [] then (tasks, input)
    else (tasks + [Task(freshId, text, false)], "")
  }

  /** The text of a task added by `addTask` is never blank and carries no
      white space at either end. */
  lemma AddedTextIsTrimmed(tasks: seq<Task>, input: string, freshId: string)
    requires !AllSpace(input)
    ensures var t := AddTask(tasks, input, freshId).0[|tasks|];
      t.text != [] && !IsJsSpace(t.text[0]) && !IsJsSpace(t.text[|t.text| - 1])
  {
    TrimBlank(input);
  }

  predicate UniqueIds(tasks: seq<Task>) {
    forall i, j :: 0 <= i < j < |tasks| ==> tasks[i].id != tasks[j].id
  }

  predicate HasId(tasks: seq<Task>, id: string) {
    exists i :: 0 <= i < |tasks| && tasks[i].id == id
  }

  /** Adding under an id no task has keeps the ids distinct. */
  lemma AddTaskKeepsIdsUnique(tasks: seq<Task>, input: string, freshId: string)
    requires UniqueIds(tasks) && !HasId(tasks, freshId)
    ensures UniqueIds(AddTask(tasks, input, freshId).0)
  {
    var r := AddTask(tasks, input, freshId).0;
    if !AllSpace(input) {
      forall i, j | 0 <= i < j < |r|
        ensures r[i].id != r[j].id
      {
        assert r[i] == tasks[i];
        if j < |tasks| {
          assert r[j] == tasks[j];
        } else {
          assert r[j].id == freshId;
        }
      }
    }
  }

  /** The checkbox updater: `prev.map(t => t.id === id ? {...t, done: !t.done} : t)`. */
  function Toggle(tasks: seq<Task>, id: string): (r: seq<Task>)
    ensures |r| == |tasks|
    ensures forall i :: 0 <= i < |r| ==>
      && r[i].id == tasks[i].id && r[i].text == tasks[i].text
      && r[i].done == (if tasks[i].id == id then !tasks[i].done else tasks[i].done)
  {
    if tasks == [] then []
    else
      var t := tasks[0];
      [if t.id == id then t.(done := !t.done) else t] + Toggle(tasks[1..], id)
  }

  /** Toggling the same task twice restores the list. */
  lemma ToggleTwice(tasks: seq<Task>, id: string)
    ensures Toggle(Toggle(tasks, id), id) == tasks
  {
    var r := Toggle(Toggle(tasks, id), id);
    assert forall i :: 0 <= i < |r| ==> r[i] == tasks[i];
  }

  /** An id no task carries leaves the list as it was. */
  lemma ToggleUnknownId(tasks: seq<Task>, id: string)
    requires !HasId(tasks, id)
    ensures Toggle(tasks, id) == tasks
  {
    var r := Toggle(tasks, id);
    forall i | 0 <= i < |r|
      ensures r[i] == tasks[i]
    {
      assert tasks[i].id != id;
    }
  }

  /** With distinct ids, a toggle changes exactly one task. */
  lemma ToggleChangesOne(tasks: seq<Task>, k: nat)
    requires UniqueIds(tasks) && k < |tasks|
    ensures var r := Toggle(tasks, tasks[k].id);
      && r[k] == tasks[k].(done := !tasks[k].done)
      && forall i :: 0 <= i < |r| && i != k ==> r[i] == tasks[i]
  {
    var r := Toggle(tasks, tasks[k].id);
    forall i | 0 <= i < |r| && i != k
      ensures r[i] == tasks[i]
    {
      if i < k {
        assert tasks[i].id != tasks[k].id;
      } else {
        assert tasks[k].id != tasks[i].id;
      }
    }
  }

  /** `clearAll`. */
  function ClearAll(tasks: seq<Task>): (r: seq<Task>)
    ensures |r| == 0
  {
    []
  }

  /** The list read at start-up. `raw` is the stored text (`None` when no
      list was stored); `parsed` is what `JSON.parse` made of it, `None`
      when reading or parsing threw. */
  function LoadTasks(raw: Option<string>, parsed: Option<seq<Task>>): (r: seq<Task>)
    ensures raw.None? || raw == Some("") || parsed.None? ==> r == []
    ensures raw.Some? && raw.value != "" && parsed.Some? ==> r == parsed.value
  {
    if raw.None? || raw.value == "" then []
    else match parsed
      case None => []
      case Some(ts) => ts
  }

  /** The pinned flag as stored: `"1"` or `"0"`. */
  function EncodePinned(pinned: bool): (r: string)
    ensures |r| == 1 && (r == "1" || r == "0")
  {
    if pinned then "1" else "0"
  }

  /** The pinned flag read at start-up: set only by a stored `"1"`. */
  function LoadPinned(raw: Option<string>): (r: bool)
    ensures raw.None? ==> !r
  {
    raw == Some("1")
  }

  /** A stored flag reads back as it was written, and nothing but `"1"`
      reads as pinned. */
  lemma PinnedRoundTrip(pinned: bool, raw: Option<string>)
    ensures LoadPinned(Some(EncodePinned(pinned))) == pinned
    ensures LoadPinned(raw) <==> raw == Some(EncodePinned(true))
  {
  }
}
