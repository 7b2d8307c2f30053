/**
 * FileImportProgressBar: the status cell of one file in the import table.
 *
 * Besides the Qt progress range, value, label and label colour, a bar keeps
 * three flags (queued, loading, loaded) and the import thread it listens
 * to.  The flags change only through setQueued, setLoaded, setIsLoading and
 * disconnectThread, and a loaded bar is never also queued or loading.
 */
module ProgressBars {
  import opened Wrappers

  /** A label colour as red, green and blue components. */
  datatype Color = Color(red: int, green: int, blue: int)

  /** The orange of "Queued" and the green of "Imported". */
  const QueuedColor := Color(242, 151, 39)
  const ImportedColor := Color(0x02, 0x8A, 0x0F)

  const QueuedLabel := "Queued"
  const ImportedLabel := "Imported"

  /** Qt's starting label format: the percentage. */
  const PercentFormat := "%p%"

  /** The upper end of the range when the bar is not indefinite. */
  const FullRange: int := 100

  /** The three flags of a bar. */
  datatype Status = Status(queued: bool, loading: bool, loaded: bool)

  const NewStatus := Status(false, false, false)

  /** A loaded file is neither waiting nor being read. */
  predicate Consistent(s: Status) {
    s.loaded ==> !s.queued && !s.loading
  }

  /** The four calls that change the flags. */
  datatype Event = Queue | Load | StartLoading | Disconnect

  /** The flags after one call. */
  function Apply(s: Status, e: Event): (t: Status)
    ensures Consistent(s) ==> Consistent(t)
  {
    match e
    case Queue => Status(true, s.loading, false)
    case Load => Status(false, false, true)
    case StartLoading => Status(s.queued, true, false)
    case Disconnect => Status(s.queued, false, s.loaded)
  }

  /** The flags after a series of calls, first to last. */
  function Run(s: Status, events: seq<Event>): Status {
    if events == [] then s else Apply(Run(s, events[..|events| - 1]), events[|events| - 1])
  }

  /** No series of calls makes a consistent bar inconsistent. */
  lemma {:induction false} RunConsistent(s: Status, events: seq<Event>)
    requires Consistent(s)
    ensures Consistent(Run(s, events))
  {
    if events != [] {
      RunConsistent(s, events[..|events| - 1]);
    }
  }

  /** Whether the events after position i contain none of the calls in among. */
  predicate NoneAfter(events: seq<Event>, i: int, among: set<Event>) {
    forall j :: 0 <= j < |events| && j > i ==> events[j] !in among
  }

  /**
   * A new bar shows loaded exactly when setLoaded was called and neither
   * setQueued nor setIsLoading came after it.
   */
  lemma {:induction false} LoadedIffLastLoad(events: seq<Event>)
    ensures Run(NewStatus, events).loaded <==>
      exists i :: 0 <= i < |events| && events[i] == Load && NoneAfter(events, i, {Queue, StartLoading})
  {
    if events != [] {
      var init := events[..|events| - 1];
      var last := events[|events| - 1];
      LoadedIffLastLoad(init);
      if Run(NewStatus, events).loaded {
        if last == Load {
          assert NoneAfter(events, |events| - 1, {Queue, StartLoading});
        } else {
          var i :| 0 <= i < |init| && init[i] == Load && NoneAfter(init, i, {Queue, StartLoading});
          assert events[i] == Load && NoneAfter(events, i, {Queue, StartLoading});
        }
      } else {
        forall i | 0 <= i < |events| && events[i] == Load
          ensures !NoneAfter(events, i, {Queue, StartLoading})
        {
          if last == Queue || last == StartLoading {
            assert i < |events| - 1;
          } else {
            assert i < |init|;
            assert init[i] == Load;
            if NoneAfter(events, i, {Queue, StartLoading}) {
              assert NoneAfter(init, i, {Queue, StartLoading});
            }
          }
        }
      }
    }
  }

  /**
   * A new bar shows queued exactly when setQueued was called and setLoaded
   * did not come after it.
   */
  lemma {:induction false} QueuedIffLastQueue(events: seq<Event>)
    ensures Run(NewStatus, events).queued <==>
      exists i :: 0 <= i < |events| && events[i] == Queue && NoneAfter(events, i, {Load})
  {
    if events != [] {
      var init := events[..|events| - 1];
      var last := events[|events| - 1];
      QueuedIffLastQueue(init);
      if Run(NewStatus, events).queued {
        if last == Queue {
          assert NoneAfter(events, |events| - 1, {Load});
        } else {
          var i :| 0 <= i < |init| && init[i] == Queue && NoneAfter(init, i, {Load});
          assert events[i] == Queue && NoneAfter(events, i, {Load});
        }
      } else {
        forall i | 0 <= i < |events| && events[i] == Queue
          ensures !NoneAfter(events, i, {Load})
        {
          if last == Load {
            assert i < |events| - 1;
          } else {
            assert i < |init|;
            assert init[i] == Queue;
            if NoneAfter(events, i, {Load}) {
              assert NoneAfter(init, i, {Load});
            }
          }
        }
      }
    }
  }

  /** The bar's state: the import thread it follows, its flags, and what Qt draws. */
  class ProgressBar {
    /** The connected import thread, by identity; None for nullptr. */
    var thread: Option<nat>
    var isQueued: bool
    var isLoading: bool
    var isLoaded: bool
    var minimum: int
    var maximum: int
    var value: int
    /** The progress bar's format string. */
    var labelText: string
    var labelColor: Color

    function GetStatus(): Status
      reads this
    {
      Status(isQueued, isLoading, isLoaded)
    }

    /** Consistent flags; the range is (0, 100), or (0, 0) while indefinite. */
    predicate Valid()
      reads this
    {
      Consistent(GetStatus()) && minimum == 0 && (maximum == 0 || maximum == FullRange)
    }

    /** A new bar: no thread, no flag set, range 0..100 at 0. */
    constructor(defaultColor: Color)
      ensures Valid() && GetStatus() == NewStatus && thread == None
      ensures minimum == 0 && maximum == FullRange && value == 0
      ensures labelText == PercentFormat && labelColor == defaultColor
    {
      thread := None;
      isQueued := false;
      isLoading := false;
      isLoaded := false;
      minimum := 0;
      maximum := FullRange;
      value := 0;
      labelText := PercentFormat;
      labelColor := defaultColor;
    }

    /** text(): with an empty range the format is shown as it is, otherwise Qt's own text. */
    function Text(qtText: string): (t: string)
      reads this
      ensures minimum == maximum ==> t == labelText
      ensures minimum != maximum ==> t == qtText
    {
      if minimum == maximum then labelText else qtText
    }

    /** setIndefinite: an empty range (0, 0), so Qt draws a busy bar and text() shows the label. */
    method SetIndefinite(indefinite: bool)
      requires Valid()
      modifies this
      ensures Valid() && minimum == 0 && maximum == (if indefinite then 0 else FullRange)
      ensures indefinite <==> forall qtText :: Text(qtText) == labelText
      ensures GetStatus() == old(GetStatus()) && thread == old(thread)
      ensures value == old(value) && labelText == old(labelText) && labelColor == old(labelColor)
    {
      if indefinite {
        minimum, maximum := 0, 0;
      } else {
        minimum, maximum := 0, FullRange;
        assert Text(labelText + "%") != labelText;
      }
    }

    /** connectThread: follow this thread's progress signals (None disconnects). */
    method ConnectThread(t: Option<nat>)
      modifies this
      ensures thread == t
      ensures GetStatus() == old(GetStatus()) && minimum == old(minimum) && maximum == old(maximum)
      ensures value == old(value) && labelText == old(labelText) && labelColor == old(labelColor)
    {
      thread := t;
    }

    /** disconnectThread: the thread is done, so the file is no longer loading. */
    method DisconnectThread()
      requires Valid()
      modifies this
      ensures Valid() && thread == None && GetStatus() == Apply(old(GetStatus()), Disconnect)
      ensures minimum == old(minimum) && maximum == old(maximum)
      ensures value == old(value) && labelText == old(labelText) && labelColor == old(labelColor)
    {
      thread := None;
      isLoading := false;
    }

    /** setQueued: orange "Queued", range 0..100 at 0; queued and not loaded. */
    method SetQueued()
      requires Valid()
      modifies this
      ensures Valid() && GetStatus() == Apply(old(GetStatus()), Queue) && thread == old(thread)
      ensures labelText == QueuedLabel && labelColor == QueuedColor
      ensures minimum == 0 && maximum == FullRange && value == 0
    {
      labelText := QueuedLabel;
      labelColor := QueuedColor;
      SetIndefinite(false);
      value := 0;
      isQueued := true;
      isLoaded := false;
    }

    /** setLoaded: green "Imported", range 0..100 at 0; loaded only. */
    method SetLoaded()
      requires Valid()
      modifies this
      ensures Valid() && GetStatus() == Apply(old(GetStatus()), Load) && thread == old(thread)
      ensures labelText == ImportedLabel && labelColor == ImportedColor
      ensures minimum == 0 && maximum == FullRange && value == 0
    {
      labelText := ImportedLabel;
      labelColor := ImportedColor;
      SetIndefinite(false);
      value := 0;
      isQueued := false;
      isLoading := false;
      isLoaded := true;
    }

    /** setIsLoading: loading and not loaded; queued is left as it was. */
    method SetIsLoading()
      requires Valid()
      modifies this
      ensures Valid() && GetStatus() == Apply(old(GetStatus()), StartLoading) && thread == old(thread)
      ensures minimum == old(minimum) && maximum == old(maximum)
      ensures value == old(value) && labelText == old(labelText) && labelColor == old(labelColor)
    {
      isLoading := true;
      isLoaded := false;
    }

    /**
     * clone: a new bar with this one's labelText, colour, range, flags and
     * thread.  The value is not copied: the copy starts at 0.
     */
    method Clone() returns (b: ProgressBar)
      requires Valid()
      ensures fresh(b) && b.Valid()
      ensures b.labelText == labelText && b.labelColor == labelColor
      ensures b.minimum == minimum && b.maximum == maximum && b.value == 0
      ensures b.GetStatus() == GetStatus() && b.thread == thread
    {
      b := new ProgressBar(labelColor);
      b.labelText := labelText;
      b.minimum, b.maximum := minimum, maximum;
      b.isQueued := isQueued;
      b.isLoading := isLoading;
      b.isLoaded := isLoaded;
      b.ConnectThread(thread);
    }
  }
}
