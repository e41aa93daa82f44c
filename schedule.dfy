/** The personal class schedule: a list of classes kept in the page's
    state, shown in a grid of six time slots by five weekdays, and saved in
    the browser's storage only for students. */
module Schedule {
  import opened Common

  const Days: seq<string> := ["Monday", "Tuesday", "Wednesday", "Thursday", "Friday"]
  const TimeSlots: seq<string> := ["8:00 AM", "9:35 AM", "11:00 AM", "1:15 PM", "2:50 PM", "4:15 PM"]

  /** The add-class form's fields. */
  datatype FormData = FormData(courseName: string, building: string, day: string, time: string)

  /** The form as it opens and as it is reset after an add. */
  const DefaultForm := FormData("", "", "Monday", "8:00 AM")

  /** A scheduled class: the form's fields and the id it was given. */
  datatype ClassEntry = ClassEntry(courseName: string, building: string, day: string, time: string, id: int)

  function EntryOf(f: FormData, id: int): ClassEntry
  {
    ClassEntry(f.courseName, f.building, f.day, f.time, id)
  }

  // ------------------------------------------------------------- deleting

  function IdOtherThan(id: int): ClassEntry -> bool
  {
    (c: ClassEntry) => c.id != id
  }

  /** The schedule without the classes of one id, the rest in order. */
  function Without(s: seq<ClassEntry>, id: int): (r: seq<ClassEntry>)
    ensures forall c :: c in r <==> c in s && c.id != id
    ensures |r| <= |s|
  {
    Filter(s, IdOtherThan(id))
  }

  /** Deleting an id no class has changes nothing. */
  lemma WithoutAbsent(s: seq<ClassEntry>, id: int)
    requires forall i :: 0 <= i < |s| ==> s[i].id != id
    ensures Without(s, id) == s
  {
    FilterKeepsAll(s, IdOtherThan(id));
  }

  /** Deleting keeps the order of the remaining classes: it works on each
      part of the list separately. */
  lemma WithoutAppend(a: seq<ClassEntry>, b: seq<ClassEntry>, id: int)
    ensures Without(a + b, id) == Without(a, id) + Without(b, id)
  {
    FilterAppend(a, b, IdOtherThan(id));
  }

  /** Deleting the id of a class just added takes it out again when no
      earlier class had that id. */
  lemma DeleteUndoesAdd(s: seq<ClassEntry>, f: FormData, id: int)
    requires forall i :: 0 <= i < |s| ==> s[i].id != id
    ensures Without(s + [EntryOf(f, id)], id) == s
  {
    FilterSnoc(s, EntryOf(f, id), IdOtherThan(id));
    WithoutAbsent(s, id);
  }

  // ----------------------------------------------------------------- grid

  function InSlot(day: string, time: string): ClassEntry -> bool
  {
    (c: ClassEntry) => c.day == day && c.time == time
  }

  /** The class a grid cell shows: the first one with that day and time. */
  function CellAt(s: seq<ClassEntry>, day: string, time: string): (r: Option<ClassEntry>)
    ensures r.None? <==> forall i :: 0 <= i < |s| ==> !(s[i].day == day && s[i].time == time)
    ensures r.Some? ==> exists k :: 0 <= k < |s| && s[k] == r.value && r.value.day == day && r.value.time == time
                                    && forall j :: 0 <= j < k ==> !(s[j].day == day && s[j].time == time)
  {
    var f := FindFirst(s, InSlot(day, time));
    if f.None? then None else Some(s[f.value])
  }

  /** A class added to a slot that already shows one is not shown. */
  lemma LaterInSlotHidden(s: seq<ClassEntry>, c: ClassEntry)
    requires CellAt(s, c.day, c.time).Some?
    ensures CellAt(s + [c], c.day, c.time) == CellAt(s, c.day, c.time)
  {
    var p := InSlot(c.day, c.time);
    var k := FindFirst(s, p).value;
    assert (s + [c])[k] == s[k];
    assert forall j :: 0 <= j < k ==> (s + [c])[j] == s[j];
    FindFirstIs(s + [c], p, k);
  }

  /** A class added to an empty slot is the one it shows. */
  lemma AddedToEmptySlotShown(s: seq<ClassEntry>, c: ClassEntry)
    requires CellAt(s, c.day, c.time).None?
    ensures CellAt(s + [c], c.day, c.time) == Some(c)
  {
    var p := InSlot(c.day, c.time);
    assert forall j :: 0 <= j < |s| ==> (s + [c])[j] == s[j];
    FindFirstIs(s + [c], p, |s|);
  }

  /** The table: one row per time slot, one cell per weekday. */
  function Grid(s: seq<ClassEntry>): (g: seq<seq<Option<ClassEntry>>>)
    ensures |g| == |TimeSlots| == 6
    ensures forall i :: 0 <= i < |g| ==> |g[i]| == |Days| == 5
    ensures forall i, j :: 0 <= i < |g| && 0 <= j < |g[i]| ==> g[i][j] == CellAt(s, Days[j], TimeSlots[i])
  {
    seq(|TimeSlots|, i requires 0 <= i < |TimeSlots| =>
      seq(|Days|, j requires 0 <= j < |Days| => CellAt(s, Days[j], TimeSlots[i])))
  }

  // ---------------------------------------------------------------- state

  /** The browser storage key of a user's schedule. */
  function StorageKey(username: string): string
  {
    "schedule_" + username
  }

  /** The schedule page's state cells, and the browser storage it saves to
      (the stored text is taken as the list it encodes). */
  class SchedulePage {
    const role: string
    const username: string
    var schedule: seq<ClassEntry>
    var formData: FormData
    var showAddForm: bool
    var storage: map<string, seq<ClassEntry>>

    /** Whether this user's schedule is loaded from and saved to storage. */
    predicate Persists()
    {
      role == "student"
    }

    /** Opening the page: a student's saved schedule is loaded, anyone
        else starts empty. */
    constructor (role: string, username: string, storage: map<string, seq<ClassEntry>>)
      ensures this.role == role && this.username == username && this.storage == storage
      ensures schedule == if role == "student" && StorageKey(username) in storage then storage[StorageKey(username)] else []
      ensures formData == DefaultForm && !showAddForm
    {
      this.role := role;
      this.username := username;
      this.storage := storage;
      formData := DefaultForm;
      showAddForm := false;
      if role == "student" && StorageKey(username) in storage {
        schedule := storage[StorageKey(username)];
      } else {
        schedule := [];
      }
    }

    /** The add-class button opens the form. */
    method OpenForm()
      modifies this
      ensures showAddForm
      ensures schedule == old(schedule) && formData == old(formData) && storage == old(storage)
    {
      showAddForm := true;
    }

    /** The Cancel button and a click on the overlay close the form; the
        typed data stays for the next opening. */
    method CloseForm()
      modifies this
      ensures !showAddForm
      ensures schedule == old(schedule) && formData == old(formData) && storage == old(storage)
    {
      showAddForm := false;
    }

    /** Editing a field of the form. */
    method EditForm(f: FormData)
      modifies this
      ensures formData == f
      ensures schedule == old(schedule) && showAddForm == old(showAddForm) && storage == old(storage)
    {
      formData := f;
    }

    /** `handleAddClass`: the form's class, with the given fresh id, goes at
        the end; a student's list is saved; the form resets and closes. */
    method AddClass(id: int)
      modifies this
      ensures schedule == old(schedule) + [EntryOf(old(formData), id)]
      ensures storage == if Persists() then old(storage)[StorageKey(username) := schedule] else old(storage)
      ensures formData == DefaultForm && !showAddForm
    {
      var updated := schedule + [EntryOf(formData, id)];
      schedule := updated;
      if role == "student" {
        storage := storage[StorageKey(username) := updated];
      }
      formData := DefaultForm;
      showAddForm := false;
    }

    /** `handleDeleteClass`: every class of the id leaves, the rest keep
        their order; a student's list is saved. */
    method DeleteClass(id: int)
      modifies this
      ensures schedule == Without(old(schedule), id)
      ensures storage == if Persists() then old(storage)[StorageKey(username) := schedule] else old(storage)
      ensures formData == old(formData) && showAddForm == old(showAddForm)
    {
      var updated := Without(schedule, id);
      schedule := updated;
      if role == "student" {
        storage := storage[StorageKey(username) := updated];
      }
    }

    /** The class the cell of a weekday and time slot shows. */
    function Cell(day: string, time: string): (r: Option<ClassEntry>)
      reads this
      ensures r.Some? ==> r.value in schedule && r.value.day == day && r.value.time == time
      ensures r.None? <==> forall i :: 0 <= i < |schedule| ==> !(schedule[i].day == day && schedule[i].time == time)
    {
      CellAt(schedule, day, time)
    }
  }

  /** A guest's session never writes to storage, whatever is added or
      deleted. */
  method GuestSessionLeavesStorage(username: string, storage: map<string, seq<ClassEntry>>, f: FormData, id: int)
    returns (page: SchedulePage)
    ensures page.storage == storage && page.schedule == []
  {
    page := new SchedulePage("guest", username, storage);
    page.EditForm(f);
    page.AddClass(id);
    assert page.schedule == [EntryOf(f, id)];
    page.DeleteClass(id);
    DeleteUndoesAdd([], f, id);
  }
}
