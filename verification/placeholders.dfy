/**
  Placeholder styles of a section template: a text `{{NAME}}` inside a run
  of a paragraph lends that run's character property and that paragraph's
  paragraph property to the content kind NAME (H1 to H6 for headings, BODY
  for body text). A later occurrence of the same name replaces an earlier one.
 */
module Placeholders {
  import opened Wrappers
  import opened TextHelpers

  /** A run of the template section: its character property and its text children (absent text is None). */
  datatype SecRun = SecRun(charPrRef: nat, texts: seq<Option<string>>)

  /** A paragraph of the template section, in document order. */
  datatype SecPara = SecPara(paraPrRef: nat, runs: seq<SecRun>)

  datatype PlaceholderStyle = PlaceholderStyle(charPrId: nat, paraPrId: nat)

  type Hit = (string, PlaceholderStyle)

  // ---------------------------------------------------------------------
  // The marker pattern: two opening braces, one or more word characters, two closing braces

  predicate IsWordChar(ch: char)
  {
    'a' <= ch <= 'z' || 'A' <= ch <= 'Z' || '0' <= ch <= '9' || ch == '_'
  }

  /** Length of the run of word characters starting at `i`. */
  function WordRunLen(s: string, i: nat): (n: nat)
    requires i <= |s|
    ensures i + n <= |s|
    ensures forall k :: i <= k < i + n ==> IsWordChar(s[k])
    ensures i + n == |s| || !IsWordChar(s[i + n])
    decreases |s| - i
  {
    if i == |s| || !IsWordChar(s[i]) then 0 else 1 + WordRunLen(s, i + 1)
  }

  /** Does a marker naming `w` start at position `i` of `s`? */
  predicate IsMarker(s: string, i: nat, w: string)
  {
    && |w| >= 1
    && (forall k :: 0 <= k < |w| ==> IsWordChar(w[k]))
    && i + |w| + 4 <= |s|
    && s[i..i + 2] == "{{"
    && s[i + 2..i + 2 + |w|] == w
    && s[i + 2 + |w|..i + 4 + |w|] == "}}"
  }

  /** The name of the marker starting at `i`, if one does. */
  function MarkerAt(s: string, i: nat): Option<string>
    requires i <= |s|
  {
    if i + 2 <= |s| && s[i..i + 2] == "{{" then
      var n := WordRunLen(s, i + 2);
      if n >= 1 && i + 2 + n + 2 <= |s| && s[i + 2 + n..i + 4 + n] == "}}" then Some(s[i + 2..i + 2 + n]) else None
    else
      None
  }

  /** A name is found at `i` exactly when a marker starts there, and it is that marker's name. */
  lemma MarkerAtSpec(s: string, i: nat)
    requires i <= |s|
    ensures MarkerAt(s, i).Some? ==> IsMarker(s, i, MarkerAt(s, i).value)
    ensures forall w :: IsMarker(s, i, w) ==> MarkerAt(s, i) == Some(w)
  {
    if i + 2 <= |s| && s[i..i + 2] == "{{" {
      var n := WordRunLen(s, i + 2);
      if n >= 1 && i + 2 + n + 2 <= |s| && s[i + 2 + n..i + 4 + n] == "}}" {
        assert IsMarker(s, i, s[i + 2..i + 2 + n]);
        MarkerUnique(s, i, n);
      } else {
        MarkerNeedsFullRun(s, i, n);
      }
    }
  }

  lemma MarkerUnique(s: string, i: nat, n: nat)
    requires i + 2 <= |s| && n == WordRunLen(s, i + 2)
    ensures forall w :: IsMarker(s, i, w) ==> w == s[i + 2..i + 2 + n]
  {
    forall w | IsMarker(s, i, w)
      ensures w == s[i + 2..i + 2 + n]
    {
      MarkerLength(s, i, n, w);
    }
  }

  lemma MarkerLength(s: string, i: nat, n: nat, w: string)
    requires i + 2 <= |s| && n == WordRunLen(s, i + 2) && IsMarker(s, i, w)
    ensures |w| == n
  {
    var e := i + 2 + |w|;
    assert s[e] == s[e..e + 2][0] == '}';
    if |w| < n {
      assert false;
    } else if |w| > n {
      assert false;
    }
  }

  lemma MarkerNeedsFullRun(s: string, i: nat, n: nat)
    requires i + 2 <= |s| && n == WordRunLen(s, i + 2)
    requires !(n >= 1 && i + 2 + n + 2 <= |s| && s[i + 2 + n..i + 4 + n] == "}}")
    ensures forall w :: !IsMarker(s, i, w)
  {
    forall w | IsMarker(s, i, w)
      ensures false
    {
      MarkerLength(s, i, n, w);
    }
  }

  /** The leftmost marker at or after position `i`. */
  function FindMarkerFrom(s: string, i: nat): Option<string>
    requires i <= |s|
    decreases |s| - i
  {
    match MarkerAt(s, i)
    case Some(w) => Some(w)
    case None => if i == |s| then None else FindMarkerFrom(s, i + 1)
  }

  /** Position `j`, at or after `i`, holds a marker and none lies between `i` and `j`. */
  ghost predicate FirstMarkerAt(s: string, i: nat, j: nat)
  {
    i <= j <= |s| && MarkerAt(s, j).Some? && forall j' :: i <= j' < j ==> MarkerAt(s, j').None?
  }

  /** The search finds the leftmost marker at or after `i`, and finds nothing only when there is none. */
  lemma {:induction false} FindMarkerFromLeftmost(s: string, i: nat)
    requires i <= |s|
    ensures FindMarkerFrom(s, i).Some? ==> exists j :: FirstMarkerAt(s, i, j) && MarkerAt(s, j) == FindMarkerFrom(s, i)
    ensures FindMarkerFrom(s, i).None? ==> forall j :: i <= j <= |s| ==> MarkerAt(s, j).None?
    decreases |s| - i
  {
    if MarkerAt(s, i).Some? {
      FirstMarkerHere(s, i);
    } else if i < |s| {
      FindMarkerFromLeftmost(s, i + 1);
      var r := FindMarkerFrom(s, i + 1);
      if r.Some? {
        var j :| FirstMarkerAt(s, i + 1, j) && MarkerAt(s, j) == r;
        FirstMarkerBack(s, i, j);
      }
    }
  }

  lemma FirstMarkerHere(s: string, i: nat)
    requires i <= |s| && MarkerAt(s, i).Some?
    ensures FirstMarkerAt(s, i, i) && FindMarkerFrom(s, i) == MarkerAt(s, i)
  {
  }

  /** A first marker after `i + 1` is the first after `i` when there is none at `i`. */
  lemma FirstMarkerBack(s: string, i: nat, j: nat)
    requires i < |s| && MarkerAt(s, i).None? && FirstMarkerAt(s, i + 1, j)
    ensures FirstMarkerAt(s, i, j)
  {
  }

  /** The name the first marker in `s` carries, as a regular-expression search returns it. */
  function FindMarker(s: string): Option<string>
  {
    FindMarkerFrom(s, 0)
  }

  // ---------------------------------------------------------------------
  // Scanning the section

  /** The placeholder a text child contributes: its first marker, upper-cased, with the run's and paragraph's ids. */
  function TextHit(t: Option<string>, charPrId: nat, paraPrId: nat): (r: seq<Hit>)
    ensures |r| <= 1
  {
    if t.Some? && t.value != "" && FindMarker(t.value).Some? then
      [(AsciiUpper(FindMarker(t.value).value), PlaceholderStyle(charPrId, paraPrId))]
    else []
  }

  /** The hits of a run's text children, in order. */
  function TextHits(texts: seq<Option<string>>, charPrId: nat, paraPrId: nat): seq<Hit>
    decreases |texts|
  {
    if texts == [] then []
    else TextHits(texts[..|texts| - 1], charPrId, paraPrId) + TextHit(texts[|texts| - 1], charPrId, paraPrId)
  }

  function RunHits(r: SecRun, paraPrId: nat): seq<Hit>
  {
    TextHits(r.texts, r.charPrRef, paraPrId)
  }

  /** The hits of a paragraph's runs, in order. */
  function RunsHits(runs: seq<SecRun>, paraPrId: nat): seq<Hit>
    decreases |runs|
  {
    if runs == [] then [] else RunsHits(runs[..|runs| - 1], paraPrId) + RunHits(runs[|runs| - 1], paraPrId)
  }

  function ParaHits(p: SecPara): seq<Hit>
  {
    RunsHits(p.runs, p.paraPrRef)
  }

  /** The hits of the section's paragraphs, in document order. */
  function Hits(paras: seq<SecPara>): seq<Hit>
    decreases |paras|
  {
    if paras == [] then [] else Hits(paras[..|paras| - 1]) + ParaHits(paras[|paras| - 1])
  }

  /** Recording the hits in order into a map: a later hit for a name overwrites an earlier one. */
  function Record(m: map<string, PlaceholderStyle>, hits: seq<Hit>): map<string, PlaceholderStyle>
    decreases |hits|
  {
    if hits == [] then m else Record(m, hits[..|hits| - 1])[hits[|hits| - 1].0 := hits[|hits| - 1].1]
  }

  /** Recording two batches of hits one after the other is recording them together. */
  lemma {:induction false} RecordConcat(m: map<string, PlaceholderStyle>, a: seq<Hit>, b: seq<Hit>)
    ensures Record(m, a + b) == Record(Record(m, a), b)
    decreases |b|
  {
    if b == [] {
      assert a + b == a;
    } else {
      var b' := b[..|b| - 1];
      assert (a + b)[..|a + b| - 1] == a + b';
      RecordConcat(m, a, b');
    }
  }

  lemma TextHitsStep(m0: map<string, PlaceholderStyle>, texts: seq<Option<string>>, k: nat, charPrId: nat, paraPrId: nat)
    requires k < |texts|
    ensures Record(m0, TextHits(texts[..k + 1], charPrId, paraPrId))
      == Record(Record(m0, TextHits(texts[..k], charPrId, paraPrId)), TextHit(texts[k], charPrId, paraPrId))
  {
    assert texts[..k + 1][..k] == texts[..k];
    RecordConcat(m0, TextHits(texts[..k], charPrId, paraPrId), TextHit(texts[k], charPrId, paraPrId));
  }

  /** Recording at most one hit: nothing, or that one name set. */
  lemma RecordOne(m: map<string, PlaceholderStyle>, hit: seq<Hit>)
    requires |hit| <= 1
    ensures Record(m, hit) == if hit == [] then m else m[hit[0].0 := hit[0].1]
  {
    if hit != [] {
      assert hit[..0] == [];
    }
  }

  /** The scan of the section for placeholders: paragraphs, their runs, their text children. */
  method FindPlaceholders(paras: seq<SecPara>) returns (m: map<string, PlaceholderStyle>)
    ensures m == Record(map[], Hits(paras))
  {
    m := map[];
    for i := 0 to |paras|
      invariant m == Record(map[], Hits(paras[..i]))
    {
      m := ScanPara(m, paras[i]);
      assert paras[..i + 1][..i] == paras[..i];
      RecordConcat(map[], Hits(paras[..i]), ParaHits(paras[i]));
    }
    assert paras[..|paras|] == paras;
  }

  /** Records the hits of one paragraph on top of `m0`. */
  method ScanPara(m0: map<string, PlaceholderStyle>, p: SecPara) returns (m: map<string, PlaceholderStyle>)
    ensures m == Record(m0, ParaHits(p))
  {
    m := m0;
    for j := 0 to |p.runs|
      invariant m == Record(m0, RunsHits(p.runs[..j], p.paraPrRef))
    {
      m := ScanRun(m, p.runs[j], p.paraPrRef);
      assert p.runs[..j + 1][..j] == p.runs[..j];
      RecordConcat(m0, RunsHits(p.runs[..j], p.paraPrRef), RunHits(p.runs[j], p.paraPrRef));
    }
    assert p.runs[..|p.runs|] == p.runs;
  }

  /** Records the hits of one run on top of `m0`: each text child's first marker, upper-cased. */
  method ScanRun(m0: map<string, PlaceholderStyle>, run: SecRun, paraPrId: nat) returns (m: map<string, PlaceholderStyle>)
    ensures m == Record(m0, RunHits(run, paraPrId))
  {
    m := m0;
    for k := 0 to |run.texts|
      invariant m == Record(m0, TextHits(run.texts[..k], run.charPrRef, paraPrId))
    {
      var t := run.texts[k];
      ghost var m1 := m;
      ghost var hit := TextHit(t, run.charPrRef, paraPrId);
      TextHitsStep(m0, run.texts, k, run.charPrRef, paraPrId);
      RecordOne(m1, hit);
      if t.Some? && t.value != "" {
        var name := FindMarker(t.value);
        if name.Some? {
          m := m[AsciiUpper(name.value) := PlaceholderStyle(run.charPrRef, paraPrId)];
        }
      }
      assert m == Record(m1, hit);
    }
    assert run.texts[..|run.texts|] == run.texts;
  }

  /**
    The recorded map holds exactly the names that occur, each with the
    style of its last occurrence.
   */
  lemma {:induction false} RecordLastWins(hits: seq<Hit>, name: string)
    ensures name in Record(map[], hits) <==> exists k :: 0 <= k < |hits| && hits[k].0 == name
    ensures name in Record(map[], hits) ==>
      exists k :: 0 <= k < |hits| && hits[k] == (name, Record(map[], hits)[name])
        && forall j :: k < j < |hits| ==> hits[j].0 != name
    decreases |hits|
  {
    if hits != [] {
      var init := hits[..|hits| - 1];
      RecordLastWins(init, name);
      assert forall k :: 0 <= k < |init| ==> init[k] == hits[k];
    }
  }
}
