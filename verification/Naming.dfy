/** The markers the scripts really use, `<!-- P12_CURRENT_START -->` and the like, meet what the
    theorems about runs ask of kinds and blocks. */
module Naming {
  import opened Text
  import opened Markers
  import opened Ledger

  predicate WordChar(c: char) {
    'A' <= c <= 'Z' || '0' <= c <= '9' || c == '_'
  }

  predicate Word(w: string) {
    forall i :: 0 <= i < |w| ==> WordChar(w[i])
  }

  function Marker(w: string): string {
    "<!-- " + w + " -->"
  }

  /** `START` and `END` are markers, for different words. */
  function Named(place: Place, start: string, end: string): Kind {
    Kind(place, Marker(start), Marker(end))
  }

  /** The block format of the scripts: each marker on a line of its own. */
  function BlockText(start: string, body: string, end: string): string {
    Marker(start) + "\n" + body + "\n" + Marker(end)
  }

  lemma MarkerChars(w: string, i: nat)
    requires Word(w) && i < |Marker(w)|
    ensures Marker(w)[i] == '<' <==> i == 0
    ensures Marker(w)[i] == '>' <==> i == |Marker(w)| - 1
    ensures Marker(w)[i] != '\n'
  {
    if 5 <= i < 5 + |w| { assert Marker(w)[i] == w[i - 5] && WordChar(w[i - 5]); }
  }

  lemma MarkersApart(a: string, b: string)
    requires Word(a) && Word(b)
    ensures Occurs(Marker(a), Marker(b)) <==> a == b
  {
    var s, m := Marker(a), Marker(b);
    FindLeftmost(s, m, 0);
    var j := Find(s, m, 0);
    assert a == s[5..|s| - 4] && b == m[5..|m| - 4];
    if a == b {
      assert At(s, m, 0);
    } else if j != -1 {
      MarkerChars(b, 0);
      MarkerChars(b, |m| - 1);
      assert s[j] == m[0] && s[j + |m| - 1] == m[|m| - 1];
      MarkerChars(a, j);
      MarkerChars(a, j + |m| - 1);
    }
  }

  lemma PrefixOccurs(t: string, a: string, b: string)
    requires Occurs(t, a + b)
    ensures Occurs(t, a)
  {
    var j := Find(t, a + b, 0);
    FindLeftmost(t, a + b, 0);
    FindLeftmost(t, a, 0);
    assert t[j..j + |a|] == t[j..j + |a + b|][..|a|] == a;
    assert At(t, a, j);
  }

  lemma NoMarkerIn(body: string, w: string)
    requires !Occurs(body, "<!--")
    ensures !Occurs(body, Marker(w))
  {
    assert Marker(w) == "<!--" + (" " + w + " -->");
    if Occurs(body, Marker(w)) { PrefixOccurs(body, "<!--", " " + w + " -->"); }
  }

  lemma MarkerIsOneLine(w: string)
    requires Word(w)
    ensures Marker(w) != "" && '\n' !in Marker(w) && !IsSpace(Marker(w)[|Marker(w)| - 1])
  {
    forall i | 0 <= i < |Marker(w)| ensures Marker(w)[i] != '\n' { MarkerChars(w, i); }
  }

  /** A marker is found in a block exactly where the block has it. */
  lemma MarkerInBlock(start: string, body: string, end: string, w: string)
    requires Word(start) && Word(end) && Word(w) && w != start && !Occurs(body, "<!--")
    ensures Find(BlockText(start, body, end), Marker(w), 0)
         == if w == end then |BlockText(start, body, end)| - |Marker(end)| else -1
  {
    hide Find;
    var m, r := Marker(w), body + "\n" + Marker(end);
    MarkerIsOneLine(w);
    MarkersApart(start, w);
    MarkersApart(end, w);
    NoMarkerIn(body, w);
    FindPastLine(body, Marker(end), m);
    FindPastLine(Marker(start), r, m);
    assert BlockText(start, body, end) == Marker(start) + "\n" + r;
    if w == end { assert At(m, m, 0); FindIs(m, m, 0, 0); }
  }

  lemma BlockTextWellFormed(place: Place, start: string, body: string, end: string)
    requires Word(start) && Word(end) && start != end && !Occurs(body, "<!--")
    ensures ValidKind(Named(place, start, end))
    ensures WellFormed(Named(place, start, end), BlockText(start, body, end))
  {
    hide Find;
    var t, n := BlockText(start, body, end), |Marker(start)|;
    MarkerIsOneLine(start);
    MarkerIsOneLine(end);
    assert At(t, Marker(start), 0);
    FindIs(t, Marker(start), 0, 0);
    MarkerInBlock(start, body, end, end);
    FindFrom(t, Marker(end), 0, n);
  }

  /** A reader of such a block gets the body, on lines of its own. */
  lemma BlockTextInner(place: Place, start: string, body: string, end: string)
    requires Word(start) && Word(end) && start != end && !Occurs(body, "<!--")
    ensures WellFormed(Named(place, start, end), BlockText(start, body, end))
    ensures Inner(Named(place, start, end), BlockText(start, body, end)) == "\n" + body + "\n"
    ensures "<!-- " + start + " -->" <= BlockText(start, body, end)
  {
    hide Find, WellFormed;
    BlockTextWellFormed(place, start, body, end);
    var t := BlockText(start, body, end);
    assert t == Marker(start) + ("\n" + body + "\n") + Marker(end);
  }

  /** Blocks as the scripts build them are clean among all kinds named by other words. */
  lemma ScriptBlocksAreClean(place: Place, start: string, body: string, end: string, kinds: set<Kind>,
                             words: map<Kind, string>)
    requires Word(start) && Word(end) && start != end && !Occurs(body, "<!--")
    requires Named(place, start, end) in kinds && kinds <= words.Keys
    requires forall k :: k in kinds ==> Word(words[k]) && k.start == Marker(words[k])
    requires forall k :: k in kinds && k != Named(place, start, end) ==> words[k] != start && words[k] != end
    ensures Clean(Block(Named(place, start, end), BlockText(start, body, end)), kinds)
  {
    hide Find;
    BlockTextWellFormed(place, start, body, end);
    forall k | k in kinds - {Named(place, start, end)} ensures !Occurs(BlockText(start, body, end), k.start) {
      MarkerInBlock(start, body, end, words[k]);
    }
  }
}
