/** `SongParser` (audio/song_parser.py): turns the bars of a song file into
    note records, one `next_note` call at a time, in file order. */
module Songs {
  import opened Wrappers

  // ---------------------------------------------------------------------
  // Sequences of bars

  function Reverse<T>(s: seq<T>): (r: seq<T>)
    ensures |r| == |s|
  {
    if s == [] then [] else Reverse(s[1..]) + [s[0]]
  }

  /** Element `i` of the reversal is element `|s| - 1 - i` of the original. */
  lemma {:induction false} ReverseIndex<T>(s: seq<T>, i: int)
    requires 0 <= i < |s|
    ensures Reverse(s)[i] == s[|s| - 1 - i]
  {
    if i < |s| - 1 {
      ReverseIndex(s[1..], i);
    }
  }

  /** `list.reverse()` in two steps: the reversal of a sequence is the
      sequence whose elements are read from the end. */
  lemma ReverseByIndex<T>(s: seq<T>, r: seq<T>)
    requires |r| == |s| && forall i :: 0 <= i < |s| ==> r[i] == s[|s| - 1 - i]
    ensures r == Reverse(s)
  {
    forall i | 0 <= i < |s|
      ensures r[i] == Reverse(s)[i]
    {
      ReverseIndex(s, i);
    }
  }

  lemma {:induction false} ReverseAppend<T>(a: seq<T>, b: seq<T>)
    ensures Reverse(a + b) == Reverse(b) + Reverse(a)
    decreases |a|
  {
    if a == [] {
      assert a + b == b;
    } else {
      assert (a + b)[1..] == a[1..] + b;
      ReverseAppend(a[1..], b);
    }
  }

  /** Reversing twice gives the original back. */
  lemma {:induction false} ReverseReverse<T>(s: seq<T>)
    ensures Reverse(Reverse(s)) == s
    decreases |s|
  {
    if s != [] {
      ReverseReverse(s[1..]);
      ReverseAppend(Reverse(s[1..]), [s[0]]);
      assert Reverse([s[0]]) == [s[0]];
      assert [s[0]] + s[1..] == s;
    }
  }

  /** Every bar reversed, in place in the list. */
  function ReverseEach<T>(bars: seq<seq<T>>): (r: seq<seq<T>>)
    ensures |r| == |bars|
  {
    seq(|bars|, i requires 0 <= i < |bars| => Reverse(bars[i]))
  }

  /** The notes of the bars, bar after bar. */
  function Flatten<T>(bars: seq<seq<T>>): seq<T> {
    if bars == [] then [] else bars[0] + Flatten(bars[1..])
  }

  // ---------------------------------------------------------------------
  // The parser's tables

  /** A `pygame.Surface`, as an opaque token. `Flipped` is the image
      `pygame.transform.flip(image, True, True)` makes. */
  datatype Image = Surface(id: nat) | Flipped(original: Image)

  /** The note letters of one octave, top down. */
  const Letters: string := "GFEDCBA"

  /** The `i`-th key of `note_y_pos`: octaves 7 down to 1, each from G down
      to A. */
  function PitchName(i: nat): (r: string)
    requires i < 49
    ensures |r| == 2
  {
    [Letters[i % 7], ('0' as int + 7 - i / 7) as char]
  }

  /** The keys of `note_y_pos`, in insertion order. */
  function PitchNames(): (r: seq<string>)
    ensures |r| == 49
  {
    seq(49, i requires 0 <= i < 49 => PitchName(i))
  }

  /** The position of `name` among `names` from index `i` on. */
  function IndexFrom(names: seq<string>, name: string, i: nat): (r: Option<nat>)
    requires i <= |names|
    ensures r.Some? ==> i <= r.value < |names| && names[r.value] == name
    ensures r.Some? ==> forall j :: i <= j < r.value ==> names[j] != name
    ensures r.None? ==> forall j :: i <= j < |names| ==> names[j] != name
    decreases |names| - i
  {
    if i == |names| then None
    else if names[i] == name then Some(i)
    else IndexFrom(names, name, i + 1)
  }

  /** `note_y_pos[name]`, `20 * i + 60` for the `i`-th key; `None` where the
      key is missing (a KeyError). */
  function NoteYPos(name: string): Option<int> {
    match IndexFrom(PitchNames(), name, 0)
    case None => None
    case Some(i) => Some(20 * i + 60)
  }

  /** The 49 pitch names are distinct, so each comes first at its own index. */
  lemma PitchNamesDistinct(i: nat, j: nat)
    requires i < j < 49
    ensures PitchNames()[i] != PitchNames()[j]
  {
    var a, b := PitchName(i), PitchName(j);
    if i / 7 == j / 7 {
      assert i % 7 != j % 7;
      assert a[0] != b[0];
    } else {
      assert a[1] != b[1];
    }
  }

  /** `note_y_pos` holds exactly the 49 pitch names, the `i`-th at height
      `20 * i + 60`. */
  lemma NoteYPosTable(i: nat)
    requires i < 49
    ensures NoteYPos(PitchNames()[i]) == Some(20 * i + 60)
  {
    var r := IndexFrom(PitchNames(), PitchNames()[i], 0);
    if r.None? {
      assert false;
    }
    if r.value < i {
      PitchNamesDistinct(r.value, i);
    }
  }

  /** Only pitch names have a height, and two names share no height. */
  lemma NoteYPosKeys(a: string, b: string)
    ensures NoteYPos(a).Some? ==> a in PitchNames()
    ensures NoteYPos(a).Some? && NoteYPos(a) == NoteYPos(b) ==> a == b
  {
  }

  /** `note_y_pos['B5']`, the stem-direction threshold. */
  const StemThreshold: int := 440

  lemma StemThresholdIsB5()
    ensures NoteYPos("B5") == Some(StemThreshold)
  {
    assert PitchNames()[19] == "B5";
    NoteYPosTable(19);
  }

  /** `self.durations[length]`: the image-name prefix of a note length. */
  function DurationPrefix(length: real): (r: Option<string>)
    ensures r.Some? <==> length in {0.25, 0.5, 1.0, 2.0, 4.0}
  {
    if length == 0.25 then Some("sixteenth_")
    else if length == 0.5 then Some("eighth_")
    else if length == 1.0 then Some("quarter_")
    else if length == 2.0 then Some("half_")
    else if length == 4.0 then Some("whole_")
    else None
  }

  // ---------------------------------------------------------------------
  // float(text)

  predicate IsDigits(s: string) {
    forall k :: 0 <= k < |s| ==> '0' <= s[k] <= '9'
  }

  /** The value of a string of decimal digits. */
  function DigitsValue(s: string): nat
    requires IsDigits(s)
  {
    if s == [] then 0 else DigitsValue(s[..|s| - 1]) * 10 + (s[|s| - 1] as int - '0' as int)
  }

  function Pow10(n: nat): (r: nat)
    ensures r > 0
  {
    if n == 0 then 1 else 10 * Pow10(n - 1)
  }

  /** The first position of `c` in `s`, or `|s|`. */
  function Find(s: string, c: char): (r: nat)
    ensures r <= |s| && (r < |s| ==> s[r] == c)
  {
    if s == [] then 0 else if s[0] == c then 0 else 1 + Find(s[1..], c)
  }

  /** Decimal digits with at most one point and at least one digit. */
  function UnsignedDecimal(s: string): (r: Option<real>)
    ensures r.Some? ==> s != []
  {
    var p := Find(s, '.');
    var whole, fraction := s[..p], if p < |s| then s[p + 1..] else "";
    if IsDigits(whole) && IsDigits(fraction) && |whole| + |fraction| > 0 then
      Some(DigitsValue(whole) as real + DigitsValue(fraction) as real / Pow10(|fraction|) as real)
    else None
  }

  /** An optional leading sign: whether it is a minus, and the text after it. */
  function SplitSign(text: string): (bool, string) {
    if text != [] && text[0] == '-' then (true, text[1..])
    else if text != [] && text[0] == '+' then (false, text[1..])
    else (false, text)
  }

  /** `float(text)` on decimal numerals with an optional sign; `None` is the
      ValueError. */
  function ParseFloat(text: string): (r: Option<real>)
    ensures r.Some? ==> text != []
  {
    var (negative, body) := SplitSign(text);
    match UnsignedDecimal(body)
    case None => None
    case Some(v) => Some(if negative then -v else v)
  }

  /** The first `.` is at `p` when the text before it is all digits. */
  lemma {:induction false} FindAfterDigits(s: string, p: nat)
    requires p <= |s| && IsDigits(s[..p]) && (p < |s| ==> s[p] == '.')
    ensures Find(s, '.') == p
    decreases p
  {
    if p > 0 {
      assert s[0] == s[..p][0];
      assert s[1..][..p - 1] == s[1..p];
      FindAfterDigits(s[1..], p - 1);
    }
  }

  /** Digits alone read as their number, so the lengths 1, 2 and 4 may be
      written "1", "2" and "4". */
  lemma ParseWhole(text: string)
    requires text != [] && IsDigits(text)
    ensures ParseFloat(text) == Some(DigitsValue(text) as real)
  {
    assert text[0] != '-' && text[0] != '+';
    assert text[..|text|] == text;
    FindAfterDigits(text, |text|);
    assert DigitsValue("") == 0;
  }

  /** Digits, a point and digits read as the decimal they spell, so the
      lengths are also read from "0.25", "0.5", "1.0", "2.0" and "4.0". */
  lemma ParsePointed(text: string, p: nat)
    requires p < |text| && text[p] == '.' && IsDigits(text[..p]) && IsDigits(text[p + 1..]) && |text| >= 2
    ensures ParseFloat(text) ==
              Some(DigitsValue(text[..p]) as real + DigitsValue(text[p + 1..]) as real / Pow10(|text[p + 1..]|) as real)
  {
    assert text[0] != '-' && text[0] != '+' by {
      if p > 0 {
        assert text[0] == text[..p][0];
      }
    }
    assert SplitSign(text) == (false, text);
    FindAfterDigits(text, p);
    var v := DigitsValue(text[..p]) as real + DigitsValue(text[p + 1..]) as real / Pow10(|text[p + 1..]|) as real;
    assert UnsignedDecimal(text) == Some(v);
  }

  // ---------------------------------------------------------------------
  // _parse

  /** An image placed at a height on the staff: `[surface, y]`. */
  datatype Placement = Placement(image: Image, y: int)

  /** The dict `_parse` builds. */
  datatype NoteData = NoteData(
    pos: int,
    noteLength: real,
    noteName: string,
    longDurationBool: int,
    played: int,
    noteImgOffset: int,
    noteImg: Option<Placement>,
    tilt: Option<Placement>)

  /** `note[3:-1]`: the text between the accidental and the final letter. */
  function LengthText(note: string): string {
    if |note| >= 5 then note[3..|note| - 1] else ""
  }

  /** `self.accidentals[c]`: the sharp or flat image, no image for a natural,
      and a KeyError (`Err`) for any other character. */
  function Accidental(c: char, sharp: Image, flat: Image): (r: Result<Option<Image>>)
    ensures r.Ok? <==> c in "#bn"
    ensures r.Err? ==> r.error == KeyError
  {
    if c == '#' then Ok(Some(sharp))
    else if c == 'b' then Ok(Some(flat))
    else if c == 'n' then Ok(None)
    else Err(KeyError)
  }

  /** Lines 73-89: the image offset and the note image for the final letter
      `kind`, at height `y`, with image names starting with `prefix`. */
  function NoteImage(images: map<string, Image>, kind: char, prefix: string, y: int): Result<(int, Option<Placement>)> {
    if kind == 'n' then
      if prefix + "note" !in images then Err(KeyError)
      else if y < StemThreshold then Ok((18, Some(Placement(Flipped(images[prefix + "note"]), y - 18))))
      else Ok((118, Some(Placement(images[prefix + "note"], y - 118))))
    else if kind == 'r' then
      if prefix + "rest" !in images then Err(KeyError)
      else Ok((0, Some(Placement(images[prefix + "rest"], 350))))
    else Ok((0, None))
  }

  /** Lines 91-92: a sharp or flat sign drawn 115 above the note. */
  function Tilt(sign: Option<Image>, y: int): Option<Placement> {
    if sign.Some? then Some(Placement(sign.value, y - 115)) else None
  }

  /** `_parse` once the length text has been read as `length`. */
  function ParseWithLength(images: map<string, Image>, sharp: Image, flat: Image, note: string, length: real): Result<NoteData>
    requires |note| >= 5
  {
    match DurationPrefix(length)
    case None => Err(KeyError)
    case Some(prefix) =>
      match NoteYPos(note[..2])
      case None => Err(KeyError)
      case Some(y) =>
        match Accidental(note[2], sharp, flat)
        case Err(e) => Err(e)
        case Ok(sign) =>
          match NoteImage(images, note[|note| - 1], prefix, y)
          case Err(e) => Err(e)
          case Ok(image) => Ok(NoteData(1280, length, note[..3], 0, 5, image.0, image.1, Tilt(sign, y)))
  }

  /** `_parse(note)`, given the image dict and the two accidental images. */
  function Parse(images: map<string, Image>, sharp: Image, flat: Image, note: string): Result<NoteData> {
    match ParseFloat(LengthText(note))
    case None => Err(ValueError)
    // float("") fails, so a note that gets here has at least five characters
    case Some(length) => ParseWithLength(images, sharp, flat, note, length)
  }

  /** A successful `_parse` in its stages: the length read from the text,
      its image-name prefix, the pitch height, the accidental and the image. */
  lemma ParseStages(images: map<string, Image>, sharp: Image, flat: Image, note: string)
    requires Parse(images, sharp, flat, note).Ok?
    ensures |note| >= 5
    ensures ParseFloat(LengthText(note)).Some?
    ensures DurationPrefix(ParseFloat(LengthText(note)).value).Some?
    ensures NoteYPos(note[..2]).Some?
    ensures Accidental(note[2], sharp, flat).Ok?
    ensures var prefix := DurationPrefix(ParseFloat(LengthText(note)).value).value;
      var y := NoteYPos(note[..2]).value;
      var image := NoteImage(images, note[|note| - 1], prefix, y);
      && image.Ok?
      && Parse(images, sharp, flat, note) ==
           Ok(NoteData(1280, ParseFloat(LengthText(note)).value, note[..3], 0, 5, image.value.0, image.value.1,
                       Tilt(Accidental(note[2], sharp, flat).value, y)))
  {
  }

  /** The fixed fields of a parsed note and where its length comes from. */
  lemma ParseFields(images: map<string, Image>, sharp: Image, flat: Image, note: string)
    requires Parse(images, sharp, flat, note).Ok?
    ensures |note| >= 5
    ensures var d := Parse(images, sharp, flat, note).value;
      && d.pos == 1280 && d.played == 5 && d.longDurationBool == 0
      && d.noteName == note[..3]
      && ParseFloat(note[3..|note| - 1]) == Some(d.noteLength)
      && d.noteLength in {0.25, 0.5, 1.0, 2.0, 4.0}
      && NoteYPos(note[..2]).Some?
      && note[2] in "#bn"
  {
    ParseStages(images, sharp, flat, note);
  }

  /** The note image: a natural note's stem points down above B5 (offset
      18, the image flipped) and up otherwise (offset 118); a rest sits at
      350; any other final letter has no image. */
  lemma NoteImagePlacement(images: map<string, Image>, kind: char, prefix: string, y: int)
    requires NoteImage(images, kind, prefix, y).Ok?
    ensures var (offset, image) := NoteImage(images, kind, prefix, y).value;
      && (kind == 'n' ==>
            && prefix + "note" in images
            && offset == (if y < StemThreshold then 18 else 118)
            && image == Some(Placement(
                 if y < StemThreshold then Flipped(images[prefix + "note"]) else images[prefix + "note"],
                 y - offset)))
      && (kind == 'r' ==> prefix + "rest" in images && offset == 0 && image == Some(Placement(images[prefix + "rest"], 350)))
      && (kind != 'n' && kind != 'r' ==> offset == 0 && image.None?)
  {
  }

  /** Where the images of a parsed note go: the note image as
      `NoteImagePlacement` says, and a tilt image exactly for a sharp or
      flat, 115 above the note's height. */
  lemma ParsePlacement(images: map<string, Image>, sharp: Image, flat: Image, note: string)
    requires Parse(images, sharp, flat, note).Ok?
    ensures |note| >= 5 && NoteYPos(note[..2]).Some?
    ensures var d := Parse(images, sharp, flat, note).value;
      var y := NoteYPos(note[..2]).value;
      && Ok((d.noteImgOffset, d.noteImg)) == NoteImage(images, note[|note| - 1], DurationPrefix(d.noteLength).value, y)
      && (d.tilt.Some? <==> note[2] == '#' || note[2] == 'b')
      && (d.tilt.Some? ==> d.tilt.value == Placement(if note[2] == '#' then sharp else flat, y - 115))
  {
    ParseStages(images, sharp, flat, note);
  }

  /** The ways `_parse` fails once the length text is a number: a length
      outside the five, an unknown pitch and an unknown accidental are
      KeyErrors, and so is a missing image; nothing else is raised. */
  lemma ParseWithLengthErrors(images: map<string, Image>, sharp: Image, flat: Image, note: string, length: real)
    requires |note| >= 5
    ensures DurationPrefix(length).None? ==> ParseWithLength(images, sharp, flat, note, length) == Err(KeyError)
    ensures NoteYPos(note[..2]).None? ==> ParseWithLength(images, sharp, flat, note, length) == Err(KeyError)
    ensures note[2] !in "#bn" ==> ParseWithLength(images, sharp, flat, note, length) == Err(KeyError)
    ensures ParseWithLength(images, sharp, flat, note, length).Err? ==>
              ParseWithLength(images, sharp, flat, note, length).error == KeyError
  {
    match DurationPrefix(length)
    case None =>
    case Some(prefix) =>
      match NoteYPos(note[..2])
      case None =>
      case Some(y) =>
        NoteImageErrors(images, note[|note| - 1], prefix, y);
  }

  /** A missing image is the only way the note image fails. */
  lemma NoteImageErrors(images: map<string, Image>, kind: char, prefix: string, y: int)
    ensures NoteImage(images, kind, prefix, y).Err? <==>
              (kind == 'n' && prefix + "note" !in images) || (kind == 'r' && prefix + "rest" !in images)
    ensures NoteImage(images, kind, prefix, y).Err? ==> NoteImage(images, kind, prefix, y).error == KeyError
  {
  }

  /** `_parse` fails with a ValueError exactly when the length text is not
      a number, and otherwise as `ParseWithLengthErrors` says. */
  lemma ParseErrors(images: map<string, Image>, sharp: Image, flat: Image, note: string)
    ensures Parse(images, sharp, flat, note) == Err(ValueError) <==> ParseFloat(LengthText(note)).None?
    ensures ParseFloat(LengthText(note)).Some? ==>
              |note| >= 5 &&
              Parse(images, sharp, flat, note) == ParseWithLength(images, sharp, flat, note, ParseFloat(LengthText(note)).value)
  {
    match ParseFloat(LengthText(note))
    case None =>
    case Some(length) =>
      ParseWithLengthErrors(images, sharp, flat, note, length);
  }

  // ---------------------------------------------------------------------
  // The parser state

  /** The bars still to play, in file order, each in file order: the rest of
      the current bar, then the bars on the stack from the top down. */
  function BarsOf(song: seq<seq<string>>, currentBar: seq<string>): seq<seq<string>> {
    [Reverse(currentBar)] + ReverseEach(Reverse(song))
  }

  /** The notes still to play, in file order. */
  function Upcoming(song: seq<seq<string>>, currentBar: seq<string>): seq<string> {
    Flatten(BarsOf(song, currentBar))
  }

  /** Popping the current bar yields the next note, and the rest follows. */
  lemma PopNote(song: seq<seq<string>>, bar: seq<string>)
    requires bar != []
    ensures Upcoming(song, bar) != []
    ensures Upcoming(song, bar)[0] == bar[|bar| - 1]
    ensures Upcoming(song, bar[..|bar| - 1]) == Upcoming(song, bar)[1..]
  {
    var rest := ReverseEach(Reverse(song));
    assert bar == bar[..|bar| - 1] + [bar[|bar| - 1]];
    ReverseAppend(bar[..|bar| - 1], [bar[|bar| - 1]]);
    assert Reverse([bar[|bar| - 1]]) == [bar[|bar| - 1]];
    assert Reverse(bar) == [bar[|bar| - 1]] + Reverse(bar[..|bar| - 1]);
    assert BarsOf(song, bar)[1..] == rest;
    assert BarsOf(song, bar[..|bar| - 1])[1..] == rest;
  }

  /** Taking the next bar off the stack when the current one is used up
      leaves the upcoming notes as they were. */
  lemma PopBar(song: seq<seq<string>>)
    requires song != []
    ensures Upcoming(song, []) == Upcoming(song[..|song| - 1], song[|song| - 1])
  {
    var top, below := song[|song| - 1], song[..|song| - 1];
    assert song == below + [top];
    ReverseAppend(below, [top]);
    assert Reverse([top]) == [top];
    assert Reverse(song) == [top] + Reverse(below);
    var rest := ReverseEach(Reverse(below));
    assert ReverseEach(Reverse(song)) == [Reverse(top)] + rest;
    assert BarsOf(song, []) == [[]] + ([Reverse(top)] + rest);
    assert Flatten(BarsOf(song, [])) == Flatten([Reverse(top)] + rest) by {
      assert BarsOf(song, [])[1..] == [Reverse(top)] + rest;
    }
    assert BarsOf(below, top) == [Reverse(top)] + rest;
  }

  /** Reverse and ReverseEach commute, and ReverseEach undoes itself. */
  lemma ReverseEachReverse(bars: seq<seq<string>>)
    ensures ReverseEach(Reverse(bars)) == Reverse(ReverseEach(bars))
    ensures ReverseEach(ReverseEach(bars)) == bars
  {
    forall i | 0 <= i < |bars|
      ensures ReverseEach(Reverse(bars))[i] == Reverse(ReverseEach(bars))[i]
    {
      ReverseIndex(bars, i);
      ReverseIndex(ReverseEach(bars), i);
    }
    forall i | 0 <= i < |bars|
      ensures ReverseEach(ReverseEach(bars))[i] == bars[i]
    {
      ReverseReverse(bars[i]);
    }
  }

  /** The state the constructor leaves: the current bar is the first bar
      after the metadata, and the stack holds the others; together they are
      every bar after the metadata, in file order. */
  lemma InitialBars(file: seq<seq<string>>)
    requires |file| >= 2
    ensures var stack := ReverseEach(Reverse(file[1..]));
      BarsOf(stack[..|stack| - 1], stack[|stack| - 1]) == file[1..]
  {
    var stack := ReverseEach(Reverse(file[1..]));
    var n := |stack|;
    ReverseIndex(file[1..], n - 1);
    assert stack[n - 1] == Reverse(file[1]);
    ReverseReverse(file[1]);
    var below := stack[..n - 1];
    assert below == ReverseEach(Reverse(file[2..])) by {
      forall i | 0 <= i < n - 1
        ensures below[i] == ReverseEach(Reverse(file[2..]))[i]
      {
        ReverseIndex(file[1..], i);
        ReverseIndex(file[2..], i);
      }
    }
    ReverseEachReverse(file[2..]);
    ReverseEachReverse(Reverse(file[2..]));
    ReverseReverse(file[2..]);
    ReverseReverse(ReverseEach(file[2..]));
    assert ReverseEach(Reverse(below)) == file[2..];
    assert file[1..] == [file[1]] + file[2..];
  }

  class SongParser {
    const images: map<string, Image>
    /** `self.accidentals['#']` and `['b']`. */
    const sharp: Image
    const flat: Image
    /** `self.song`: the bars not yet started, next one at the end, each
        reversed. */
    var song: seq<seq<string>>
    /** `self.current_bar`: the rest of the current bar, next note at the end. */
    var currentBar: seq<string>
    /** `self.end_of_bar`; it does not exist before the first `next_note`. */
    var endOfBar: Option<bool>

    constructor (images: map<string, Image>, song: seq<seq<string>>, currentBar: seq<string>)
      requires "sharp" in images && "flat" in images
      ensures this.images == images && sharp == images["sharp"] && flat == images["flat"]
      ensures this.song == song && this.currentBar == currentBar && endOfBar == None
    {
      this.images := images;
      sharp := images["sharp"];
      flat := images["flat"];
      this.song := song;
      this.currentBar := currentBar;
      endOfBar := None;
    }

    /** `SongParser(song, images)`. The caller's list is reversed in place
        and so is every bar but the metadata, which ends up last. The parser
        then holds every bar after the metadata. A missing sharp or flat
        image is a KeyError and fewer than two segments an IndexError, both
        raised after the reversals. */
    static method Create(file: array<seq<string>>, images: map<string, Image>)
      returns (r: Result<SongParser>)
      modifies file
      ensures file.Length >= 1 ==> file[file.Length - 1] == old(file[0])
      ensures file[..] == if file.Length == 0 then [] else
                ReverseEach(Reverse(old(file[..])[1..])) + [old(file[0])]
      ensures ("sharp" !in images || "flat" !in images) <==> r == Err(KeyError)
      ensures r == Err(IndexError) <==> "sharp" in images && "flat" in images && file.Length < 2
      ensures r.Ok? ==>
                && fresh(r.value) && r.value.images == images && r.value.endOfBar == None
                && BarsOf(r.value.song, r.value.currentBar) == old(file[..])[1..]
                && Upcoming(r.value.song, r.value.currentBar) == Flatten(old(file[..])[1..])
    {
      ghost var original := file[..];
      ReverseSong(file);
      var bars := if file.Length == 0 then 0 else file.Length - 1;
      ReverseBars(file, bars);
      InitialLayout(original, file[..]);
      var stack := file[..bars];
      if "sharp" !in images || "flat" !in images {
        return Err(KeyError);
      }
      if stack == [] {
        return Err(IndexError);
      }
      InitialBars(original);
      var parser := new SongParser(images, stack[..|stack| - 1], stack[|stack| - 1]);
      return Ok(parser);
    }

    /** `next_note`: the next note of the song, parsed. When the current bar
        is used up the next bar is taken from the stack; when none is left
        the result is `None`. `endOfBar` says whether the note returned was
        the last of its bar. */
    method NextNote() returns (r: Result<Option<NoteData>>)
      modifies this`song, this`currentBar, this`endOfBar
      ensures old(currentBar) != [] ==>
                && song == old(song) && currentBar == old(currentBar)[..|old(currentBar)| - 1]
                && endOfBar == Some(|old(currentBar)| == 1)
                && r == Lift(Parse(images, sharp, flat, old(currentBar)[|old(currentBar)| - 1]))
      ensures old(currentBar) == [] && old(song) != [] && old(song)[|old(song)| - 1] == [] ==>
                song == old(song)[..|old(song)| - 1] && currentBar == [] && endOfBar == Some(false) &&
                r == Err(IndexError)
      ensures old(currentBar) == [] && old(song) == [] ==>
                song == [] && currentBar == [] && endOfBar == Some(false) && r == Ok(None)
      ensures r == Ok(None) <==> old(currentBar) == [] && old(song) == []
      ensures r.Ok? && r.value.Some? ==>
                && Upcoming(old(song), old(currentBar)) != []
                && Lift(Parse(images, sharp, flat, Upcoming(old(song), old(currentBar))[0])) == r
                && Upcoming(song, currentBar) == Upcoming(old(song), old(currentBar))[1..]
                && endOfBar == Some(currentBar == [])
    {
      if currentBar != [] {
        r := PopAndParse();
        return;
      }
      // len([]) == 1 is false
      endOfBar := Some(false);
      if song == [] {
        return Ok(None);
      }
      PopBar(song);
      currentBar := song[|song| - 1];
      song := song[..|song| - 1];
      if currentBar == [] {
        return Err(IndexError);
      }
      r := PopAndParse();
    }

    /** Lines 104 and 113 on a current bar with notes left: record whether
        this is its last note, pop it and parse it. */
    method PopAndParse() returns (r: Result<Option<NoteData>>)
      requires currentBar != []
      modifies this`currentBar, this`endOfBar
      ensures currentBar == old(currentBar)[..|old(currentBar)| - 1]
      ensures endOfBar == Some(|old(currentBar)| == 1) && endOfBar == Some(currentBar == [])
      ensures r == Lift(Parse(images, sharp, flat, old(currentBar)[|old(currentBar)| - 1]))
      ensures Upcoming(song, old(currentBar)) != []
      ensures Upcoming(song, old(currentBar))[0] == old(currentBar)[|old(currentBar)| - 1]
      ensures Upcoming(song, currentBar) == Upcoming(song, old(currentBar))[1..]
    {
      endOfBar := Some(|currentBar| == 1);
      var note := currentBar[|currentBar| - 1];
      PopNote(song, currentBar);
      currentBar := currentBar[..|currentBar| - 1];
      r := Lift(Parse(images, sharp, flat, note));
    }
  }

  /** A parsed note as `next_note` returns it. */
  function Lift(p: Result<NoteData>): (r: Result<Option<NoteData>>)
    ensures r.Ok? <==> p.Ok?
    ensures r.Ok? ==> r.value == Some(p.value)
    ensures r.Err? ==> r.error == p.error
  {
    match p
    case Ok(d) => Ok(Some(d))
    case Err(e) => Err(e)
  }

  /** `song.reverse()` on the caller's list. */
  method ReverseSong(file: array<seq<string>>)
    modifies file
    ensures file[..] == Reverse(old(file[..]))
  {
    ghost var original := file[..];
    var n := file.Length;
    forall i | 0 <= i < n {
      file[i] := file[n - 1 - i];
    }
    ReverseByIndex(original, file[..]);
  }

  /** Lines 19-21: `bar.reverse()` on each of the first `count` bars, which
      the caller's list shares with `self.song`. */
  method ReverseBars(file: array<seq<string>>, count: nat)
    requires count <= file.Length
    modifies file
    ensures file[..count] == ReverseEach(old(file[..count]))
    ensures file[count..] == old(file[count..])
  {
    for i := 0 to count
      invariant forall j :: 0 <= j < i ==> file[j] == Reverse(old(file[j]))
      invariant forall j :: i <= j < file.Length ==> file[j] == old(file[j])
    {
      file[i] := Reverse(file[i]);
    }
  }

  /** What the two reversal steps of the constructor leave in the caller's
      list: every bar after the metadata reversed, in reverse order, then
      the metadata. */
  lemma InitialLayout(original: seq<seq<string>>, now: seq<seq<string>>)
    requires |now| == |original|
    requires original != [] ==>
               && now[..|now| - 1] == ReverseEach(Reverse(original)[..|now| - 1])
               && now[|now| - 1..] == Reverse(original)[|now| - 1..]
    ensures original != [] ==> now[..|now| - 1] == ReverseEach(Reverse(original[1..]))
    ensures now == if now == [] then [] else ReverseEach(Reverse(original[1..])) + [original[0]]
  {
    if now != [] {
      var n := |now|;
      var r := Reverse(original);
      assert r == Reverse(original[1..]) + [original[0]];
      assert r[..n - 1] == Reverse(original[1..]);
      assert r[n - 1..] == [original[0]];
      assert now == now[..n - 1] + now[n - 1..];
    }
  }
}
