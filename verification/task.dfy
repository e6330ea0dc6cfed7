/** The task record of TaskManager/Models/Task.swift. */
module Models {
  import opened Optional

  /** A task's priority; the source's enumeration is raw-value backed and
      case-iterable. */
  datatype Priority = Low | Medium | High

  /** `Priority.allCases`, in declaration order. */
  const AllCases: seq<Priority> := [Low, Medium, High]

  /** The raw string each priority is encoded as. */
  function RawValue(p: Priority): string
  {
    match p
    case Low => "Low"
    case Medium => "Medium"
    case High => "High"
  }

  /** `Priority(rawValue:)`: the priority whose raw value is `s`, if any. */
  function FromRawValue(s: string): (r: Option<Priority>)
    ensures forall p :: r == Some(p) <==> RawValue(p) == s
  {
    if s == "Low" then Some(Low)
    else if s == "Medium" then Some(Medium)
    else if s == "High" then Some(High)
    else None
  }

  /** The display colour of a priority. */
  function Color(p: Priority): string
  {
    match p
    case Low => "green"
    case Medium => "orange"
    case High => "red"
  }

  /** Stands for the `Date` a task was created at; never inspected. */
  datatype Timestamp = Timestamp(seconds: int)

  /** Stands for the task's `UUID`. */
  type TaskId = nat

  const DefaultCategory: string := "Personal"

  datatype Task = Task(
    id: TaskId,
    title: string,
    isCompleted: bool,
    priority: Priority,
    category: string,
    createdAt: Timestamp)

  /** The memberwise initialiser with the source's default field values; the
      fresh id and the current time are supplied by the caller. */
  function NewTask(id: TaskId, title: string, createdAt: Timestamp,
                   priority: Priority := Medium, category: string := DefaultCategory): Task
  {
    Task(id, title, false, priority, category, createdAt)
  }

  /** `isCompleted.toggle()` on one task. */
  function Toggled(t: Task): (r: Task)
    ensures r.isCompleted == !t.isCompleted
    ensures r.(isCompleted := t.isCompleted) == t
  {
    t.(isCompleted := !t.isCompleted)
  }

  /** No two tasks of `ts` share an id. */
  ghost predicate DistinctIds(ts: seq<Task>)
  {
    forall i, j :: 0 <= i < j < |ts| ==> ts[i].id != ts[j].id
  }

  /** A task built with only a title is open, of medium priority and in the
      "Personal" category. */
  lemma NewTaskDefaults(id: TaskId, title: string, createdAt: Timestamp)
    ensures var t := NewTask(id, title, createdAt);
            t.id == id && t.title == title && t.createdAt == createdAt &&
            !t.isCompleted && t.priority == Medium && t.category == "Personal"
  {
  }

  /** `allCases` lists each of the three priorities exactly once, low first. */
  lemma AllCasesEnumeratesPriorities()
    ensures |AllCases| == 3
    ensures AllCases[0] == Low && AllCases[1] == Medium && AllCases[2] == High
    ensures forall p: Priority :: p in AllCases
  {
    forall p: Priority ensures p in AllCases {
      match p
      case Low => assert AllCases[0] == p;
      case Medium => assert AllCases[1] == p;
      case High => assert AllCases[2] == p;
    }
  }

  /** Decoding the raw value of a priority gives that priority back. */
  lemma RawValueRoundTrip(p: Priority)
    ensures FromRawValue(RawValue(p)) == Some(p)
  {
  }

  /** Distinct priorities have distinct raw values and distinct colours. */
  lemma RawValueAndColorInjective(p: Priority, q: Priority)
    requires p != q
    ensures RawValue(p) != RawValue(q)
    ensures Color(p) != Color(q)
  {
  }

  /** Toggling twice restores the task. */
  lemma ToggledTwice(t: Task)
    ensures Toggled(Toggled(t)) == t
  {
  }
}
