/**
 The link anchors of a document: anchors of tools/check_documentation_links.py, over lines whose explicit ids
 and heading slugs have been found.
 */
module Anchors {
  import opened Sets
  import opened Wrappers

  /** The ids a prose line declares, and the slug of its heading if it is one. */
  datatype Line = Line(ids: set<string>, slug: Option<string>)

  // ---------------------------------------------------------------- numbered suffixes

  function Decimal(n: nat): (r: string)
    ensures |r| > 0
  {
    if n < 10 then [Digit(n)] else Decimal(n / 10) + [Digit(n % 10)]
  }

  function Digit(d: nat): char
    requires d < 10
  {
    '0' + d as char
  }

  /** The slug itself, then the slug with 1, 2 and so on. */
  function Candidate(slug: string, k: nat): string {
    if k == 0 then slug else slug + "-" + Decimal(k)
  }

  lemma {:induction false} DecimalInjective(a: nat, b: nat)
    requires Decimal(a) == Decimal(b)
    ensures a == b
  {
    var x, y := Decimal(a), Decimal(b);
    assert x[|x| - 1] == Digit(a % 10) && y[|y| - 1] == Digit(b % 10);
    if a >= 10 && b >= 10 {
      assert x[..|x| - 1] == Decimal(a / 10) && y[..|y| - 1] == Decimal(b / 10);
      DecimalInjective(a / 10, b / 10);
    }
  }

  lemma CandidateInjective(slug: string, a: nat, b: nat)
    requires Candidate(slug, a) == Candidate(slug, b)
    ensures a == b
  {
    if a > 0 && b > 0 {
      assert Candidate(slug, a)[|slug| + 1..] == Decimal(a) && Candidate(slug, b)[|slug| + 1..] == Decimal(b);
      DecimalInjective(a, b);
    }
  }

  // ---------------------------------------------------------------- the anchors a document should have

  /** The least suffix that gives a new id. */
  ghost predicate FirstFree(ids: set<string>, slug: string, k: nat) {
    Candidate(slug, k) !in ids && forall j :: 0 <= j < k ==> Candidate(slug, j) in ids
  }

  ghost function Candidates(slug: string, n: nat): (r: set<string>)
    ensures |r| == n
    ensures forall c :: c in r <==> exists j :: 0 <= j < n && c == Candidate(slug, j)
  {
    if n == 0 then {}
    else
      var before := Candidates(slug, n - 1);
      assert Candidate(slug, n - 1) !in before by {
        forall j | 0 <= j < n - 1
          ensures Candidate(slug, j) != Candidate(slug, n - 1)
        {
          if Candidate(slug, j) == Candidate(slug, n - 1) { CandidateInjective(slug, j, n - 1); }
        }
      }
      before + {Candidate(slug, n - 1)}
  }

  /** Only finitely many suffixes can be taken: the search for a free one ends. */
  lemma TakenBound(ids: set<string>, slug: string, k: nat)
    requires forall j :: 0 <= j < k ==> Candidate(slug, j) in ids
    ensures k <= |ids|
  {
    SubsetSize(Candidates(slug, k), ids);
  }

  lemma {:induction false} SomeFree(ids: set<string>, slug: string, k: nat)
    requires forall j :: 0 <= j < k ==> Candidate(slug, j) in ids
    ensures exists n :: FirstFree(ids, slug, n)
    decreases |ids| - k
  {
    TakenBound(ids, slug, k);
    if Candidate(slug, k) in ids {
      TakenBound(ids, slug, k + 1);
      SomeFree(ids, slug, k + 1);
    } else {
      assert FirstFree(ids, slug, k);
    }
  }

  /** The anchor of a heading: its slug with the least suffix not in use. */
  ghost function Anchor(ids: set<string>, slug: string): (anchor: string)
    ensures anchor !in ids && exists k :: FirstFree(ids, slug, k) && anchor == Candidate(slug, k)
  {
    SomeFree(ids, slug, 0);
    var k :| FirstFree(ids, slug, k);
    Candidate(slug, k)
  }

  /** Everything in use when the heading of the last line gets its anchor. */
  ghost function Used(lines: seq<Line>): set<string>
    requires lines != []
    decreases lines, 0
  {
    IdsAfter(lines[..|lines| - 1]) + lines[|lines| - 1].ids
  }

  ghost function IdsAfter(lines: seq<Line>): set<string>
    decreases lines, 1
  {
    if lines == [] then {}
    else
      match lines[|lines| - 1].slug
      case None => Used(lines)
      case Some(slug) => Used(lines) + {Anchor(Used(lines), slug)}
  }

  /** The anchors of the headings, in document order. */
  ghost function AnchorsOf(lines: seq<Line>): seq<string> {
    if lines == [] then []
    else
      AnchorsOf(lines[..|lines| - 1]) +
      match lines[|lines| - 1].slug
      case None => []
      case Some(slug) => [Anchor(Used(lines), slug)]
  }

  ghost function Declared(lines: seq<Line>): set<string> {
    if lines == [] then {} else Declared(lines[..|lines| - 1]) + lines[|lines| - 1].ids
  }

  /**
   The ids of a document are those it declares and one anchor for each heading, and no two headings share
   an anchor, whatever ids are mixed in.
   */
  lemma {:induction false} AnchorsDistinct(lines: seq<Line>)
    ensures IdsAfter(lines) == Declared(lines) + set a | a in AnchorsOf(lines)
    ensures forall i, j :: 0 <= i < j < |AnchorsOf(lines)| ==> AnchorsOf(lines)[i] != AnchorsOf(lines)[j]
  {
    if lines != [] {
      AnchorsDistinct(lines[..|lines| - 1]);
      var before := AnchorsOf(lines[..|lines| - 1]);
      assert forall a :: a in before ==> a in Used(lines);
    }
  }

  /** The number a text of digits stands for. */
  function Number(text: string): int {
    if text == "" then 0 else 10 * Number(text[..|text| - 1]) + (text[|text| - 1] as int - '0' as int)
  }

  /** A suffix is written in decimal, without leading zeros. */
  lemma {:induction false} DecimalExact(n: nat)
    ensures Number(Decimal(n)) == n && forall c :: c in Decimal(n) ==> '0' <= c <= '9'
    ensures n > 0 ==> Decimal(n)[0] != '0'
  {
    if n >= 10 {
      DecimalExact(n / 10);
      assert Decimal(n)[..|Decimal(n)| - 1] == Decimal(n / 10);
    } else {
      assert Number("") == 0 && [Digit(n)][..0] == "";
    }
  }

  /** What a heading gets: its slug if that is free, and otherwise the slug, a hyphen and the least free number. */
  lemma AnchorExact(ids: set<string>, slug: string)
    ensures Anchor(ids, slug) !in ids
    ensures slug !in ids ==> Anchor(ids, slug) == slug
    ensures slug in ids ==>
              exists k: nat :: k > 0 && Anchor(ids, slug) == slug + "-" + Decimal(k)
                               && forall j: nat :: 0 < j < k ==> slug + "-" + Decimal(j) in ids
  {
    var anchor := Anchor(ids, slug);
    var k: nat :| FirstFree(ids, slug, k) && anchor == Candidate(slug, k);
    assert Candidate(slug, 0) == slug;
    forall j: nat | 0 < j < k
      ensures slug + "-" + Decimal(j) in ids
    {
      assert Candidate(slug, j) in ids;
    }
  }

  /** When a heading gets its anchor, the ids declared so far and the anchors of earlier headings are in use. */
  lemma UsedExact(lines: seq<Line>)
    requires lines != []
    ensures var earlier := AnchorsOf(lines[..|lines| - 1]);
            Used(lines) == Declared(lines) + set a | a in earlier
  {
    AnchorsDistinct(lines[..|lines| - 1]);
  }

  // ---------------------------------------------------------------- the loops

  /** For every slug, the suffixes its counter has passed are in use. */
  ghost predicate Passed(counts: map<string, nat>, ids: set<string>) {
    forall slug, j :: slug in counts && 0 <= j < counts[slug] ==> Candidate(slug, j) in ids
  }

  /** The counter only skips suffixes in use: the heading gets the least free one. */
  method AddHeading(ids: set<string>, counts: map<string, nat>, slug: string)
    returns (newIds: set<string>, newCounts: map<string, nat>)
    requires Passed(counts, ids)
    ensures newIds == ids + {Anchor(ids, slug)} && Passed(newCounts, newIds)
  {
    var count := if slug in counts then counts[slug] else 0;
    var candidate := if count > 0 then slug + "-" + Decimal(count) else slug;
    TakenBound(ids, slug, count);
    while candidate in ids
      invariant candidate == Candidate(slug, count) && forall j :: 0 <= j < count ==> Candidate(slug, j) in ids
      invariant count <= |ids|
      decreases |ids| - count
    {
      TakenBound(ids, slug, count + 1);
      count := count + 1;
      candidate := slug + "-" + Decimal(count);
    }
    assert FirstFree(ids, slug, count);
    OneFree(ids, slug, count);
    return ids + {candidate}, counts[slug := count + 1];
  }

  lemma OneFree(ids: set<string>, slug: string, k: nat)
    requires FirstFree(ids, slug, k)
    ensures Anchor(ids, slug) == Candidate(slug, k)
  {
  }

  method Anchors(lines: seq<Line>) returns (ids: set<string>)
    ensures ids == IdsAfter(lines)
  {
    ids := {};
    var counts: map<string, nat> := map[];
    for i := 0 to |lines|
      invariant ids == IdsAfter(lines[..i]) && Passed(counts, ids)
    {
      assert lines[..i + 1][..i] == lines[..i];
      ids := ids + lines[i].ids;
      if lines[i].slug.Some? {
        ids, counts := AddHeading(ids, counts, lines[i].slug.value);
      }
    }
    assert lines[..|lines|] == lines;
  }
}
