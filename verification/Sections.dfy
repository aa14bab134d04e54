/** Notes added to one decision section of the decision log (p18_r2_evidence/finish.py). */
module Sections {
  import opened Outcome
  import opened Text

  const NEXT_HEADING := "\n## "

  function EndFrom(s: string, from: nat): (r: int)
    ensures 0 <= r <= |s|
  {
    var e := Find(s, NEXT_HEADING, from);
    if e == -1 then |s| else e
  }

  /** Where the section of `heading` ends: before the next heading, or with the text. */
  function SectionEnd(s: string, heading: string): (r: int)
    requires Occurs(s, heading)
    ensures 0 <= r <= |s|
  {
    EndFrom(s, Find(s, heading, 0) + 1)
  }

  function InsertNote(s: string, heading: string, note: string): Result<string> {
    if !Occurs(s, heading) then Err(SubstringNotFound)
    else
      var e := SectionEnd(s, heading);
      Ok(s[..e] + note + s[e..])
  }

  function InsertNotes(s: string, heading: string, notes: seq<string>): Result<string> {
    if notes == [] then Ok(s)
    else
      var s' :- InsertNotes(s, heading, notes[..|notes| - 1]);
      InsertNote(s', heading, notes[|notes| - 1])
  }

  function Concat(notes: seq<string>): string {
    if notes == [] then "" else Concat(notes[..|notes| - 1]) + notes[|notes| - 1]
  }

  /** A heading is one line; a note starts a new one. */
  predicate Heading(h: string) {
    h != "" && '\n' !in h
  }

  predicate Note(n: string) {
    n == "" || n[0] == '\n'
  }

  // ----- where the section ends -----

  lemma EndIsNewline(s: string, from: nat)
    ensures EndFrom(s, from) < |s| ==> s[EndFrom(s, from)] == '\n'
    ensures EndFrom(s, from) < |s| ==> Find(s[EndFrom(s, from)..], NEXT_HEADING, 0) == 0
    ensures from <= |s| ==> from <= EndFrom(s, from)
  {
    hide Find;
    var e := EndFrom(s, from);
    FindLeftmost(s, NEXT_HEADING, from);
    if Find(s, NEXT_HEADING, from) != -1 {
      assert s[e..e + 4] == NEXT_HEADING;
      assert s[e..][..4] == NEXT_HEADING && At(s[e..], NEXT_HEADING, 0);
      FindIs(s[e..], NEXT_HEADING, 0, 0);
    }
  }

  /** A section ends in front of the first second-level heading behind its own, or with the text. */
  lemma EndExactly(s: string, h: string)
    requires Heading(h) && Occurs(s, h)
    ensures var p, e := Find(s, h, 0), SectionEnd(s, h);
      && p < e <= |s| && (e == |s| || "\n## " <= s[e..])
      && forall j :: p < j < e ==> !("\n## " <= s[j..])
  {
    hide Find, At;
    var p := Find(s, h, 0);
    FindLeftmost(s, h, 0);
    EndFound(s, p + 1);
    forall j | p < j <= |s| ensures At(s, NEXT_HEADING, j) <==> "\n## " <= s[j..] { HeadingAt(s, j); }
  }

  lemma EndFound(s: string, from: nat)
    requires from <= |s|
    ensures var e := EndFrom(s, from);
      from <= e && (e == |s| || At(s, NEXT_HEADING, e)) && forall j :: from <= j < e ==> !At(s, NEXT_HEADING, j)
  {
    hide Find, At;
    FindLeftmost(s, NEXT_HEADING, from);
  }

  lemma HeadingAt(s: string, j: nat)
    requires j <= |s|
    ensures At(s, NEXT_HEADING, j) <==> "\n## " <= s[j..]
  {
    if j + 4 <= |s| { assert s[j..j + 4] == s[j..][..4]; }
  }

  /** The section holds its whole heading. */
  lemma HeadingInside(s: string, h: string)
    requires Heading(h) && Occurs(s, h)
    ensures Find(s, h, 0) + |h| <= SectionEnd(s, h)
  {
    hide Find;
    var p, e := Find(s, h, 0), SectionEnd(s, h);
    FindLeftmost(s, h, 0);
    EndIsNewline(s, p + 1);
    if e < p + |h| { CharInside(s, h, p, e); }
  }

  lemma NothingBeforeEnd(s: string, from: nat)
    requires from <= |s|
    ensures from <= EndFrom(s, from) && Find(s[..EndFrom(s, from)], NEXT_HEADING, from) == -1
  {
    hide Find;
    var e := EndFrom(s, from);
    assert s == s[..e] + s[e..];
    EndIsNewline(s, from);
    if Find(s[..e], NEXT_HEADING, from) != -1 { FindStable(s[..e], s[e..], NEXT_HEADING, from); }
  }

  /** The first heading pattern behind a note that was put in at the end of a section. */
  lemma EndBehindNote(s: string, from: nat, n: string)
    requires from <= |s| && Note(n)
    ensures EndFrom(s[..EndFrom(s, from)] + n + s[EndFrom(s, from)..], from) == EndFrom(s, from) + EndFrom(n, 0)
  {
    hide Find;
    var e := EndFrom(s, from);
    var a, z := s[..e], s[e..];
    NothingBeforeEnd(s, from);
    EndIsNewline(s, from);
    assert NEXT_HEADING[1..] == "## ";
    if Find(n, NEXT_HEADING, 0) == -1 {
      FindPastCut(n, z, NEXT_HEADING, 0);
      if z == "" { EmptyHasNone(); }
    } else {
      FindStable(n, z, NEXT_HEADING, 0);
    }
    assert a + n + z == a + (n + z);
    assert n + z == "" || (n + z)[0] == '\n';
    FindPastCut(a, n + z, NEXT_HEADING, from);
  }

  lemma EmptyHasNone()
    ensures Find("", NEXT_HEADING, 0) == -1
  {}

  // ----- inserting -----

  /** One insertion: the section grows by the note, everything else is byte for byte the same,
      and the section's end moves by what the note has before its own first heading. */
  lemma InsertionIsLocal(s: string, h: string, n: string)
    requires Heading(h) && Note(n) && Occurs(s, h)
    ensures InsertNote(s, h, n).Ok?
    ensures var s', p, e := InsertNote(s, h, n).value, Find(s, h, 0), SectionEnd(s, h);
      && Occurs(s', h) && Find(s', h, 0) == p
      && SectionEnd(s', h) == e + EndFrom(n, 0)
      && s' == s[..p] + (s[p..e] + n) + s[e..]
  {
    hide Find, EndFrom;
    var p, e := Find(s, h, 0), SectionEnd(s, h);
    var s' := s[..e] + n + s[e..];
    HeadingInside(s, h);
    FirstInPrefix(s, h, e);
    FindStable(s[..e], n + s[e..], h, 0);
    assert s' == s[..e] + (n + s[e..]) && s[..e] == s[..p] + s[p..e];
    EndBehindNote(s, p + 1, n);
  }

  /** Two insertions, for every two notes: the second goes in front of the first heading that
      the first note brings along, and behind the whole note when it brings none. */
  lemma SecondNoteLands(s: string, h: string, n: string, n': string)
    requires Heading(h) && Note(n) && Occurs(s, h)
    ensures InsertNote(s, h, n).Ok? && InsertNote(InsertNote(s, h, n).value, h, n').Ok?
    ensures var e, i := SectionEnd(s, h), EndFrom(n, 0);
      InsertNote(InsertNote(s, h, n).value, h, n').value == s[..e] + (n[..i] + n' + n[i..]) + s[e..]
  {
    hide Find, EndFrom;
    InsertionIsLocal(s, h, n);
    var e, i := SectionEnd(s, h), EndFrom(n, 0);
    var s' := s[..e] + n + s[e..];
    assert s'[..e + i] == s[..e] + n[..i] && s'[e + i..] == n[i..] + s[e..];
    assert s[..e] + n[..i] + n' + (n[i..] + s[e..]) == s[..e] + (n[..i] + n' + n[i..]) + s[e..];
  }

  predicate PlainNotes(notes: seq<string>) {
    forall i :: 0 <= i < |notes| ==> Note(notes[i]) && !Occurs(notes[i], NEXT_HEADING)
  }

  lemma {:induction false} ConcatIsPlain(notes: seq<string>)
    requires PlainNotes(notes)
    ensures Note(Concat(notes)) && !Occurs(Concat(notes), NEXT_HEADING)
  {
    hide Find;
    if notes == [] {
      EmptyHasNone();
    } else {
      var front, n := notes[..|notes| - 1], notes[|notes| - 1];
      ConcatIsPlain(front);
      assert NEXT_HEADING[1..] == "## ";
      FindPastCut(Concat(front), n, NEXT_HEADING, 0);
    }
  }

  /** Any sequence of notes without headings accumulates in order at the end of the section. */
  lemma {:induction false} NotesAccumulate(s: string, h: string, notes: seq<string>)
    requires Heading(h) && PlainNotes(notes) && Occurs(s, h)
    ensures InsertNotes(s, h, notes).Ok?
    ensures InsertNotes(s, h, notes).value == s[..SectionEnd(s, h)] + Concat(notes) + s[SectionEnd(s, h)..]
  {
    hide Find, EndFrom, SectionEnd;
    var e := SectionEnd(s, h);
    if notes == [] {
      assert s == s[..e] + "" + s[e..];
    } else {
      var front, n := notes[..|notes| - 1], notes[|notes| - 1];
      NotesAccumulate(s, h, front);
      ConcatIsPlain(front);
      var c := Concat(front);
      SecondNoteLands(s, h, c, n);
      assert EndFrom(c, 0) == |c| by { PlainEnd(c); }
      assert c[..|c|] + n + c[|c|..] == c + n;
    }
  }

  lemma PlainEnd(c: string)
    requires !Occurs(c, NEXT_HEADING)
    ensures EndFrom(c, 0) == |c|
  {}
}
