/** The parts of `Application` (application.py) the core depends on: the
    default reference table, `reset_notes`, the `get_font` cache and the
    `set_screen` guard. */
module App {
  import opened Wrappers
  import opened ReferenceTable

  /** `self.default_notes`: the twelve chromatic notes from A, one target
      frequency each. */
  function DefaultNotes(): seq<NoteEntry> {
    [ NoteEntry("A", [440]), NoteEntry("A#/Bb", [466]), NoteEntry("B", [493]),
      NoteEntry("C", [523]), NoteEntry("C#/Db", [554]), NoteEntry("D", [587]),
      NoteEntry("D#/Eb", [622]), NoteEntry("E", [659]), NoteEntry("F", [698]),
      NoteEntry("F#/Gb", [739]), NoteEntry("G", [783]), NoteEntry("G#/Ab", [830]) ]
  }

  /** The default table is a valid dict: twelve distinct names, in
      chromatic order from A, each with a single target. */
  lemma DefaultNotesShape()
    ensures |DefaultNotes()| == 12
    ensures DistinctNames(DefaultNotes())
    ensures forall i :: 0 <= i < 12 ==> |DefaultNotes()[i].targets| == 1
    ensures forall i :: 0 <= i < 12 ==>
              DefaultNotes()[i].name == ["A", "A#/Bb", "B", "C", "C#/Db", "D", "D#/Eb", "E", "F", "F#/Gb", "G", "G#/Ab"][i]
  {
  }

  /** A font handle as `pygame.font.Font(path, size)` creates it. */
  datatype Font = Font(path: string, size: int)

  /** `Application.load_font(size)` */
  function LoadFont(size: int): Font {
    Font(".\\assets\\font.ttf", size)
  }

  /** The keys of `self.screens`. */
  const ScreenNames: set<string> :=
    {"main_menu", "song_select", "options", "login", "calibrate", "performance", "analysis"}

  predicate NoRepeats(s: seq<int>) {
    forall i, j :: 0 <= i < j < |s| ==> s[i] != s[j]
  }

  class Application {
    var notes: seq<NoteEntry>
    /** `self.default_notes`, fixed by the constructor. */
    const defaultNotes: seq<NoteEntry>
    var fontSizes: map<int, Font>
    /** `self.current_screen`; it does not exist until the first `set_screen`. */
    var currentScreen: Option<string>
    /** The sizes passed to `load_font` so far, in call order. */
    ghost var fontLoads: seq<int>

    /** `notes` always lists the default names in the default order: the
        calibration only replaces target lists. */
    ghost predicate NotesValid()
      reads this`notes
    {
      SameNames(notes, defaultNotes)
    }

    /** Every cached font was loaded once, for its own size. */
    ghost predicate FontsValid()
      reads this`fontSizes, this`fontLoads
    {
      && NoRepeats(fontLoads)
      && (forall s :: s in fontSizes <==> s in fontLoads)
      && (forall s :: s in fontSizes ==> fontSizes[s] == LoadFont(s))
    }

    ghost predicate Valid()
      reads this
    {
      NotesValid() && FontsValid()
    }

    /** `__init__`, as far as the core is concerned: the default table,
        `notes` set by `reset_notes`, and an empty font cache. */
    constructor ()
      ensures Valid()
      ensures notes == defaultNotes == DefaultNotes()
      ensures fontSizes == map[] && fontLoads == [] && currentScreen == None
    {
      defaultNotes := DefaultNotes();
      notes := DefaultNotes();
      fontSizes := map[];
      fontLoads := [];
      currentScreen := None;
    }

    /** `reset_notes`: `notes` becomes a copy of the default table. */
    method ResetNotes()
      modifies this`notes
      ensures NotesValid()
      ensures notes == defaultNotes
    {
      notes := defaultNotes;
    }

    /** `get_font(size)`: loads a font on the first request for a size and
        returns the cached one afterwards. */
    method GetFont(size: int) returns (font: Font)
      requires FontsValid()
      modifies this`fontSizes, this`fontLoads
      ensures FontsValid()
      ensures font == LoadFont(size) && size in fontSizes && fontSizes[size] == font
      ensures size in old(fontSizes) ==>
                font == old(fontSizes)[size] && fontSizes == old(fontSizes) && fontLoads == old(fontLoads)
      ensures size !in old(fontSizes) ==>
                fontSizes == old(fontSizes)[size := font] && fontLoads == old(fontLoads) + [size]
    {
      if size !in fontSizes {
        fontSizes := fontSizes[size := LoadFont(size)];
        fontLoads := fontLoads + [size];
      }
      font := fontSizes[size];
    }

    /** `set_screen(name)`: KeyError for an unknown name, which leaves the
        current screen as it was. */
    method SetScreen(name: string) returns (r: Outcome)
      modifies this`currentScreen
      ensures name !in ScreenNames ==> r == Fail(KeyError) && currentScreen == old(currentScreen)
      ensures name in ScreenNames ==> r == Pass && currentScreen == Some(name)
    {
      if name !in ScreenNames {
        return Fail(KeyError);
      }
      currentScreen := Some(name);
      return Pass;
    }
  }
}
