/**
 * The integer parts of src/scl.cpp: the base-36 digit codec (scl::base10To36,
 * scl::base36To10) and the note-name parser of scl::freq, up to the number of
 * semitones above MIDI note 0; freq raises 2 to that number divided by 12.
 *
 * C characters are Dafny chars; a C string is the sequence of its
 * characters before the terminating NUL, and reading at or past its end
 * yields NUL. scl::within(v, lo, hi) is taken to be lo <= v <= hi.
 */
module Scl {

  datatype Option<T> = None | Some(value: T)

  const NUL: char := 0 as char

  /** scl::within: v lies in the closed interval [lo, hi]. */
  predicate Within(v: int, lo: int, hi: int)
  {
    lo <= v <= hi
  }

  /** The C library's tolower in the "C" locale: only 'A'..'Z' change. */
  function ToLower(c: char): (r: char)
    ensures Within(c as int, 'A' as int, 'Z' as int) ==> r as int == c as int + 32
    ensures !Within(c as int, 'A' as int, 'Z' as int) ==> r == c
  {
    if 'A' <= c <= 'Z' then (c as int + 32) as char else c
  }

  /** A lower-case base-36 digit: '0'..'9' or 'a'..'z'. */
  predicate IsDigit36(c: char)
  {
    '0' <= c <= '9' || 'a' <= c <= 'z'
  }

  /** A character base36To10 recognises: an ASCII digit or letter of either case. */
  predicate IsAlphanumeric(c: char)
  {
    IsDigit36(ToLower(c))
  }

  /**
   * scl::base10To36: the digit for v in 0..35.
   * Every value, in range or not, yields a lower-case base-36 digit, and a
   * value outside 0..35 yields '0'.
   */
  function Base10To36(v: int): (c: char)
    ensures IsDigit36(c)
    ensures !Within(v, 0, 35) ==> c == '0'
  {
    if Within(v, 0, 9) then ('0' as int + v) as char
    else if Within(v, 10, 35) then ('a' as int + v - 10) as char
    else '0'
  }

  /**
   * scl::base36To10: the value of a base-36 digit, letters in either case.
   * The result is always a digit value, and it is 0 for a character that is
   * not alphanumeric.
   */
  function Base36To10(v: char): (r: int)
    ensures Within(r, 0, 35)
    ensures !IsAlphanumeric(v) ==> r == 0
  {
    var c := ToLower(v);
    if Within(c as int, '0' as int, '9' as int) then c as int - '0' as int
    else if Within(c as int, 'a' as int, 'z' as int) then c as int - 'a' as int + 10
    else 0
  }

  /** Decoding the digit of a value in 0..35 gives the value back. */
  lemma DigitRoundTrip(v: int)
    requires Within(v, 0, 35)
    ensures Base36To10(Base10To36(v)) == v
  {
  }

  /** Encoding the value of an alphanumeric character gives the character back, in lower case. */
  lemma CharRoundTrip(c: char)
    requires IsAlphanumeric(c)
    ensures Base10To36(Base36To10(c)) == ToLower(c)
  {
  }

  /** Decoding ignores case: an upper-case letter has the value of its lower-case form. */
  lemma Base36CaseInsensitive(c: char)
    ensures Base36To10(c) == Base36To10(ToLower(c))
  {
  }

  /** Distinct values in 0..35 get distinct digits. */
  lemma Base10To36Injective(v: int, w: int)
    requires Within(v, 0, 35) && Within(w, 0, 35)
    requires Base10To36(v) == Base10To36(w)
    ensures v == w
  {
    DigitRoundTrip(v);
    DigitRoundTrip(w);
  }

  /** The character at index i of a C string: NUL at or past its end. */
  function CharAt(s: string, i: nat): char
  {
    if i < |s| then s[i] else NUL
  }

  /** The static table r of freq: the semitone of each natural note a..g within its octave. */
  const NaturalSemitones: seq<int> := [9, 11, 0, 2, 4, 5, 7]

  /** The semitone of natural note `letter` above the C of its octave. */
  function Natural(letter: char): (r: int)
    requires Within(letter as int, 'a' as int, 'g' as int)
    ensures Within(r, 0, 11)
  {
    NaturalSemitones[letter as int - 'a' as int]
  }

  /**
   * The natural notes in scale order c, d, e, f, g, a, b get strictly
   * increasing semitones, whole steps apart except for the half steps e-f
   * and b-c: the pitch classes of the C major scale, each letter its own.
   */
  lemma NaturalsFormMajorScale()
    ensures Natural('c') == 0 && Natural('d') == 2 && Natural('e') == 4 && Natural('f') == 5
    ensures Natural('g') == 7 && Natural('a') == 9 && Natural('b') == 11
    ensures forall l1: char, l2: char :: 'a' <= l1 <= 'g' && 'a' <= l2 <= 'g' && l1 != l2 ==> Natural(l1) != Natural(l2)
  {
  }

  /** The change an accidental character makes: '+' sharpens, '-' flattens, anything else leaves the note natural. */
  function Accidental(c: char): (a: int)
    ensures Within(a, -1, 1)
    ensures a == 1 <==> c == '+'
    ensures a == -1 <==> c == '-'
  {
    if c == '+' then 1 else if c == '-' then -1 else 0
  }

  /** An accidental is present, so the octave digit comes one character later; a space counts as one. */
  predicate HasAccidental(c: char)
  {
    c == '+' || c == '-' || c == ' '
  }

  /**
   * The semitone number freq computes for a note name: None when the first
   * character is not a letter a..g (freq returns 0), otherwise the natural's
   * semitone, plus the accidental, plus 12 per octave, the octave being the
   * character code after the accidental (or after the letter) minus '0'.
   */
  function NoteNumber(note: string): (n: Option<int>)
    ensures n.None? <==> !Within(CharAt(note, 0) as int, 'a' as int, 'g' as int)
  {
    var letter := CharAt(note, 0);
    if !Within(letter as int, 'a' as int, 'g' as int) then None
    else
      var second := CharAt(note, 1);
      var octave := if HasAccidental(second) then CharAt(note, 2) else second;
      Some(Natural(letter) + Accidental(second) + (octave as int - 48) * 12)
  }

  /**
   * The note-name part of scl::freq, walking the string as the source does:
   * read the letter, look it up, read one more character, and on an
   * accidental or a space apply it and read the character after it.
   */
  method ParseNote(note: string) returns (n: Option<int>)
    ensures n == NoteNumber(note)
  {
    var i := 0;
    var c := CharAt(note, i);
    i := i + 1;
    if Within(c as int, 'a' as int, 'g' as int) {
      var result := NaturalSemitones[c as int - 97];
      c := CharAt(note, i);
      i := i + 1;
      if c == '+' {
        result := result + 1;
        c := CharAt(note, i);
      } else if c == '-' {
        result := result - 1;
        c := CharAt(note, i);
      } else if c == ' ' {
        c := CharAt(note, i);
      }
      n := Some(result + (c as int - 48) * 12);
    } else {
      n := None;
    }
  }

  /** A sharp raises the note by one semitone and moves the octave digit one character on. */
  lemma SharpRaises(letter: char, digit: char, rest: string)
    requires Within(letter as int, 'a' as int, 'g' as int) && !HasAccidental(digit)
    ensures NoteNumber([letter, '+', digit] + rest).value == NoteNumber([letter, digit] + rest).value + 1
  {
  }

  /** A flat lowers the note by one semitone. */
  lemma FlatLowers(letter: char, digit: char, rest: string)
    requires Within(letter as int, 'a' as int, 'g' as int) && !HasAccidental(digit)
    ensures NoteNumber([letter, '-', digit] + rest).value == NoteNumber([letter, digit] + rest).value - 1
  {
  }

  /** A space in the accidental position is skipped: the note stays natural. */
  lemma SpaceIsNatural(letter: char, digit: char, rest: string)
    requires Within(letter as int, 'a' as int, 'g' as int) && !HasAccidental(digit)
    ensures NoteNumber([letter, ' ', digit] + rest) == NoteNumber([letter, digit] + rest)
  {
  }

  /** With an accidental, the next octave digit is twelve semitones higher. */
  lemma OctaveStep(letter: char, acc: char, digit: char, rest: string)
    requires Within(letter as int, 'a' as int, 'g' as int) && HasAccidental(acc)
    requires digit as int + 1 < 0x11_0000 && !(0xD800 <= digit as int + 1 < 0xE000)
    ensures NoteNumber([letter, acc, (digit as int + 1) as char] + rest).value ==
            NoteNumber([letter, acc, digit] + rest).value + 12
  {
  }

  /** Without an accidental, the next octave digit is twelve semitones higher too. */
  lemma OctaveStepNatural(letter: char, digit: char, rest: string)
    requires Within(letter as int, 'a' as int, 'g' as int) && !HasAccidental(digit)
    requires digit as int + 1 < 0x11_0000 && !(0xD800 <= digit as int + 1 < 0xE000)
    requires !HasAccidental((digit as int + 1) as char)
    ensures NoteNumber([letter, (digit as int + 1) as char] + rest).value ==
            NoteNumber([letter, digit] + rest).value + 12
  {
  }

  /** Two note names: "a4" is semitone 57 (a above C of octave 4) and "c+0" semitone 1. */
  lemma NoteExamples()
    ensures NoteNumber("a4") == Some(57)
    ensures NoteNumber("c+0") == Some(1)
    ensures NoteNumber("h4") == None && NoteNumber("") == None
  {
  }
}
