/** The categories under which the pending files are listed (p13_evidence/final_audit.py). */
module Categories {

  type Path = string

  datatype Category = SourceTests | AcceptanceSpecific | SharedNavigation | Documents | Evidence

  const EVIDENCE_FOLDER := "docs/project_memory/p13_evidence/"
  const DOCUMENT_NAMES := ["63_", "64_", "65_", "66_"]
  const ACCEPTANCE_ENTRY := "P12_\U{7528}\U{6237}\U{6B63}\U{5F0F}\U{9A8C}\U{6536}"
  const ACCEPTANCE_NAMES := ["59_", "60_", "61_", "62_", ACCEPTANCE_ENTRY]

  /** `Path(p).name` */
  function NameOf(p: Path): string {
    if '/' in p then NameOf(p[1..]) else p
  }

  predicate StartsWithAny(t: string, prefixes: seq<string>) {
    exists i :: 0 <= i < |prefixes| && prefixes[i] <= t
  }

  predicate IsSource(p: Path) {
    "src/" <= p || "tests/" <= p
  }

  /** Where the branches of the loop put a file that is not source. */
  function CategoryOf(p: Path): Category {
    if IsSource(p) then SourceTests
    else if EVIDENCE_FOLDER <= p then Evidence
    else if StartsWithAny(NameOf(p), DOCUMENT_NAMES) then Documents
    else if StartsWithAny(NameOf(p), ACCEPTANCE_NAMES) then AcceptanceSpecific
    else SharedNavigation
  }

  lemma SamePrefix(t: string, i: nat, j: nat)
    requires i < |DOCUMENT_NAMES| && j < |ACCEPTANCE_NAMES| && ACCEPTANCE_NAMES[j] <= t
    ensures !(DOCUMENT_NAMES[i] <= t)
  {
    assert t[1] == ACCEPTANCE_NAMES[j][1] != DOCUMENT_NAMES[i][1];
  }

  /** The two name tests exclude each other, so their order in the loop does not matter; the
      evidence folder does come first, whatever the file is called. */
  lemma NamesExclude(p: Path)
    ensures StartsWithAny(NameOf(p), ACCEPTANCE_NAMES) && !IsSource(p) && !(EVIDENCE_FOLDER <= p) ==>
      CategoryOf(p) == AcceptanceSpecific
    ensures EVIDENCE_FOLDER <= p ==> CategoryOf(p) == Evidence
  {
    var t := NameOf(p);
    if StartsWithAny(t, ACCEPTANCE_NAMES) && StartsWithAny(t, DOCUMENT_NAMES) {
      var i :| 0 <= i < |DOCUMENT_NAMES| && DOCUMENT_NAMES[i] <= t;
      var j :| 0 <= j < |ACCEPTANCE_NAMES| && ACCEPTANCE_NAMES[j] <= t;
      SamePrefix(t, i, j);
    }
    if EVIDENCE_FOLDER <= p { assert p[0] == EVIDENCE_FOLDER[0] == 'd'; }
  }

  lemma NameBehindFolder(folder: string, name: string)
    requires '/' !in name && (folder == "" || folder[|folder| - 1] == '/')
    ensures NameOf(folder + name) == name
  {
    if folder == "" {
      assert folder + name == name;
    } else {
      assert (folder + name)[|folder| - 1] == '/';
      assert (folder + name)[1..] == folder[1..] + name;
      NameBehindFolder(folder[1..], name);
    }
  }

  /** Every category, by the place and the name of the file. */
  lemma CategoryExactly(folder: string, name: string)
    requires '/' !in name && (folder == "" || folder[|folder| - 1] == '/')
    ensures var p, c := folder + name, CategoryOf(folder + name);
      if "src/" <= p || "tests/" <= p then c == SourceTests
      else if "docs/project_memory/p13_evidence/" <= p then c == Evidence
      else if "63_" <= name || "64_" <= name || "65_" <= name || "66_" <= name then c == Documents
      else if "59_" <= name || "60_" <= name || "61_" <= name || "62_" <= name || ACCEPTANCE_ENTRY <= name
      then c == AcceptanceSpecific
      else c == SharedNavigation
  {
    NameBehindFolder(folder, name);
    DocumentNames(name);
    AcceptanceNames(name);
  }

  lemma DocumentNames(t: string)
    ensures StartsWithAny(t, DOCUMENT_NAMES) <==> "63_" <= t || "64_" <= t || "65_" <= t || "66_" <= t
  {
    assert DOCUMENT_NAMES[0] == "63_" && DOCUMENT_NAMES[1] == "64_" && DOCUMENT_NAMES[2] == "65_";
    assert DOCUMENT_NAMES[3] == "66_";
  }

  lemma AcceptanceNames(t: string)
    ensures StartsWithAny(t, ACCEPTANCE_NAMES) <==>
      "59_" <= t || "60_" <= t || "61_" <= t || "62_" <= t || ACCEPTANCE_ENTRY <= t
  {
    assert ACCEPTANCE_NAMES[0] == "59_" && ACCEPTANCE_NAMES[1] == "60_" && ACCEPTANCE_NAMES[2] == "61_";
    assert ACCEPTANCE_NAMES[3] == "62_" && ACCEPTANCE_NAMES[4] == ACCEPTANCE_ENTRY;
  }

  function Of(pending: seq<Path>, c: Category): seq<Path> {
    if pending == [] then []
    else
      var p := pending[|pending| - 1];
      Of(pending[..|pending| - 1], c) + if CategoryOf(p) == c then [p] else []
  }

  /** The source files are listed first; the loop then skips them and appends to the other lists.
      Git's list is sorted, so sorting the source files keeps their order in it. */
  method Categorize(pending: seq<Path>) returns (lists: map<Category, seq<Path>>)
    ensures forall c :: c in lists && lists[c] == Of(pending, c)
  {
    hide CategoryOf, Of;
    lists := map[SourceTests := Of(pending, SourceTests), AcceptanceSpecific := [], SharedNavigation := [],
                 Documents := [], Evidence := []];
    OfNone();
    assert pending[..0] == [];
    forall c ensures c in lists && lists[c] == if c == SourceTests then Of(pending, c) else Of(pending[..0], c) {
      match c case SourceTests => case AcceptanceSpecific => case SharedNavigation => case Documents => case Evidence =>
    }
    var i := 0;
    while i < |pending|
      invariant 0 <= i <= |pending|
      invariant forall c :: c in lists && lists[c] == if c == SourceTests then Of(pending, c) else Of(pending[..i], c)
    {
      var p := pending[i];
      OfNext(pending, i);
      SourceIsSource(p);
      if !IsSource(p) {
        lists := lists[CategoryOf(p) := lists[CategoryOf(p)] + [p]];
      }
      i := i + 1;
    }
    assert pending[..i] == pending;
  }

  lemma SourceIsSource(p: Path)
    ensures CategoryOf(p) == SourceTests <==> IsSource(p)
  {}

  lemma OfNone()
    ensures forall c :: Of([], c) == []
  {}

  lemma OfNext(pending: seq<Path>, i: nat)
    requires i < |pending|
    ensures forall c ::
      Of(pending[..i + 1], c) == Of(pending[..i], c) + if CategoryOf(pending[i]) == c then [pending[i]] else []
  {
    hide CategoryOf;
    assert pending[..i + 1][..i] == pending[..i];
  }

  lemma OfOne(p: Path, c: Category)
    ensures Of([p], c) == if CategoryOf(p) == c then [p] else []
  {
    hide CategoryOf;
    assert [p][..0] == [];
  }

  /** The lists keep the order of the listing. */
  lemma {:induction false} ListsKeepOrder(a: seq<Path>, b: seq<Path>, c: Category)
    ensures Of(a + b, c) == Of(a, c) + Of(b, c)
    ensures forall p :: b == [p] ==> Of(b, c) == if CategoryOf(p) == c then [p] else []
    decreases |b|
  {
    hide CategoryOf;
    if b == [] {
      assert a + b == a;
    } else {
      var n := |b| - 1;
      ListsKeepOrder(a, b[..n], c);
      assert (a + b)[..|a + b| - 1] == a + b[..n] && (a + b)[|a + b| - 1] == b[n];
      var last := if CategoryOf(b[n]) == c then [b[n]] else [];
      assert Of(a + b, c) == Of(a + b[..n], c) + last;
      assert Of(a, c) + (Of(b[..n], c) + last) == Of(a, c) + Of(b[..n], c) + last;
      if |b| == 1 { OfOne(b[0], c); }
    }
  }

  /** Every pending file is in the list of one category, as often as it is pending, and in no other. */
  lemma {:induction false} ListsPartition(pending: seq<Path>, p: Path, c: Category)
    ensures multiset(Of(pending, c))[p] == if CategoryOf(p) == c then multiset(pending)[p] else 0
  {
    hide CategoryOf;
    if pending != [] {
      var front, q := pending[..|pending| - 1], pending[|pending| - 1];
      ListsPartition(front, p, c);
      assert pending == front + [q];
    }
  }

  /** The sizes add up to the number of pending files. */
  lemma {:induction false} SizesAddUp(pending: seq<Path>)
    ensures |Of(pending, SourceTests)| + |Of(pending, AcceptanceSpecific)| + |Of(pending, SharedNavigation)|
          + |Of(pending, Documents)| + |Of(pending, Evidence)| == |pending|
  {
    hide CategoryOf;
    if pending != [] { SizesAddUp(pending[..|pending| - 1]); }
  }
}
