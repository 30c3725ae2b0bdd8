/**
 * Keytag selection (NACC.prototype.createTagsArray): the milestone tags earned
 * for a number of elapsed days and whole months, appended one at a time in a
 * fixed order, and the image code of each tag (createWhiteKeytag ...
 * create30YearKeytag).
 */
module Keytags {

  /** The keytags, in the order of their image codes "01" to "14". */
  datatype Keytag =
    | White | Orange | Green | Red | Blue | Yellow | Year | Gray | Black
    | Decade | Decades | TwentyFiveYear | TenThousandDay | ThirtyYear

  /** Position of a tag in the code order. */
  function Rank(t: Keytag): (n: nat)
    ensures 1 <= n <= 14
  {
    match t
    case White => 1 case Orange => 2 case Green => 3 case Red => 4
    case Blue => 5 case Yellow => 6 case Year => 7 case Gray => 8 case Black => 9
    case Decade => 10 case Decades => 11 case TwentyFiveYear => 12
    case TenThousandDay => 13 case ThirtyYear => 14
  }

  /** The two-digit image code of each tag; it is the tag's rank written in decimal. */
  function Code(t: Keytag): (c: string)
    ensures |c| == 2
    ensures c[0] == ('0' as int + Rank(t) / 10) as char && c[1] == ('0' as int + Rank(t) % 10) as char
  {
    match t
    case White => "01" case Orange => "02" case Green => "03" case Red => "04"
    case Blue => "05" case Yellow => "06" case Year => "07" case Gray => "08" case Black => "09"
    case Decade => "10" case Decades => "11" case TwentyFiveYear => "12"
    case TenThousandDay => "13" case ThirtyYear => "14"
  }

  /** The image file name: the code, followed by "_Front" for the face side. */
  function ImageName(t: Keytag, face: bool): string
  {
    Code(t) + (if face then "_Front" else "")
  }

  /** Different tags, or different sides, never share an image. */
  lemma ImageNamesDistinct(t1: Keytag, face1: bool, t2: Keytag, face2: bool)
    ensures ImageName(t1, face1) == ImageName(t2, face2) ==> t1 == t2 && face1 == face2
  {
    if ImageName(t1, face1) == ImageName(t2, face2) {
      assert |ImageName(t1, face1)| == |ImageName(t2, face2)|;
      assert face1 == face2;
      assert Code(t1)[0] == ImageName(t1, face1)[0] == ImageName(t2, face2)[0] == Code(t2)[0];
      assert Code(t1)[1] == ImageName(t1, face1)[1] == ImageName(t2, face2)[1] == Code(t2)[1];
      assert Rank(t1) == Rank(t2);
    }
  }

  // ---------------------------------------------------------------------
  // Specification of the selection

  function Opt(earned: bool, t: Keytag): seq<Keytag>
  {
    if earned then [t] else []
  }

  /** The day-count tags: white, orange, green and red. */
  function ColourTags(numDays: int): seq<Keytag>
  {
    Opt(0 < numDays, White) + Opt(29 < numDays, Orange) + Opt(59 < numDays, Green) + Opt(89 < numDays, Red)
  }

  /** The month-count tags: blue, yellow, year, gray and black. */
  function MonthTags(months: int): seq<Keytag>
  {
    Opt(5 < months, Blue) + Opt(8 < months, Yellow) + Opt(11 < months, Year)
      + Opt(17 < months, Gray) + Opt(23 < months, Black)
  }

  /** The tags emitted before the yearly loop. */
  function FixedTags(numDays: int, months: int): seq<Keytag>
  {
    ColourTags(numDays) + (if 90 < numDays then MonthTags(months) else [])
  }

  /**
   * The tag of one loop step at mark `mark`: with special tags on, the decade,
   * 25-year or 30-year tag replaces the black one. The fourth check repeats
   * the second and is never reached.
   */
  function BandTag(mark: int, special: bool): Keytag
  {
    if special && mark == 120 then Decade
    else if special && mark == 300 then TwentyFiveYear
    else if special && mark % 360 == 0 then ThirtyYear
    else if special && mark == 300 then TwentyFiveYear
    else Black
  }

  /** What one loop step emits: its band tag, then the 10,000-day tag at mark 324. */
  function StepTags(mark: int, numDays: int, special: bool): seq<Keytag>
  {
    [BandTag(mark, special)] + Opt(special && mark == 324 && 9999 < numDays, TenThousandDay)
  }

  /**
   * The yearly loop from step i on, in steps of 12 while i <= limit. The
   * special checks look at i + shift; the source compares i itself (shift 0).
   */
  function YearlyBand(i: int, limit: int, shift: int, numDays: int, special: bool): seq<Keytag>
    decreases limit - i
  {
    if i > limit then [] else StepTags(i + shift, numDays, special) + YearlyBand(i + 12, limit, shift, numDays, special)
  }

  /** Everything createTagsArray emits, in order. */
  function Tags(numDays: int, months: int, special: bool): seq<Keytag>
  {
    FixedTags(numDays, months) + (if 90 < numDays then YearlyBand(24, months - 12, 0, numDays, special) else [])
  }

  /** Number of loop steps from i to limit. */
  function StepCount(i: int, limit: int): nat
  {
    if i > limit then 0 else (limit - i) / 12 + 1
  }

  // ---------------------------------------------------------------------
  // The method

  /** Appends the earned tags one at a time, as the source appends images. */
  method CreateTagsArray(inNumDays: int, inMonths: int, special: bool) returns (tags: seq<Keytag>)
    ensures tags == Tags(inNumDays, inMonths, special)
  {
    tags := [];
    if 0 < inNumDays {
      tags := tags + [White];
    }
    assert tags == Opt(0 < inNumDays, White);
    if 29 < inNumDays {
      tags := tags + [Orange];
    }
    assert tags == Opt(0 < inNumDays, White) + Opt(29 < inNumDays, Orange);
    if 59 < inNumDays {
      tags := tags + [Green];
    }
    assert tags == Opt(0 < inNumDays, White) + Opt(29 < inNumDays, Orange) + Opt(59 < inNumDays, Green);
    if 89 < inNumDays {
      tags := tags + [Red];
    }
    assert tags == ColourTags(inNumDays);
    if 90 < inNumDays {
      ghost var colour := tags;
      if 5 < inMonths {
        tags := tags + [Blue];
      }
      assert tags == colour + Opt(5 < inMonths, Blue);
      if 8 < inMonths {
        tags := tags + [Yellow];
      }
      assert tags == colour + Opt(5 < inMonths, Blue) + Opt(8 < inMonths, Yellow);
      if 11 < inMonths {
        tags := tags + [Year];
      }
      assert tags == colour + Opt(5 < inMonths, Blue) + Opt(8 < inMonths, Yellow) + Opt(11 < inMonths, Year);
      if 17 < inMonths {
        tags := tags + [Gray];
      }
      assert tags == colour + Opt(5 < inMonths, Blue) + Opt(8 < inMonths, Yellow) + Opt(11 < inMonths, Year)
        + Opt(17 < inMonths, Gray);
      if 23 < inMonths {
        tags := tags + [Black];
      }
      assert tags == colour + MonthTags(inMonths);
      assert tags == FixedTags(inNumDays, inMonths);
      var months := inMonths - 12;
      tags := AppendYearlyTags(tags, months, inNumDays, special);
    }
  }

  /**
   * The yearly loop of createTagsArray, run on the month count already reduced
   * by 12: one step per 12 months from 24 on, each appending its band tag and,
   * at step 324, the 10,000-day tag.
   */
  method AppendYearlyTags(start: seq<Keytag>, months: int, inNumDays: int, special: bool) returns (tags: seq<Keytag>)
    ensures tags == start + YearlyBand(24, months, 0, inNumDays, special)
  {
    tags := start;
    var i := 24;
    while i <= months
      invariant tags + YearlyBand(i, months, 0, inNumDays, special) == start + YearlyBand(24, months, 0, inNumDays, special)
      decreases months - i
    {
      ghost var before := tags;
      var specialTag := false;
      if special {
        if i == 120 {
          specialTag := true;
          tags := tags + [Decade];
        }
        if !specialTag && i == 300 {
          specialTag := true;
          tags := tags + [TwentyFiveYear];
        }
        if !specialTag && i % 360 == 0 {
          specialTag := true;
          tags := tags + [ThirtyYear];
        }
        if !specialTag && i == 300 {
          specialTag := true;
          tags := tags + [TwentyFiveYear];
        }
      }
      assert specialTag ==> tags == before + [BandTag(i, special)];
      assert !specialTag ==> tags == before && BandTag(i, special) == Black;
      if !specialTag {
        tags := tags + [Black];
      }
      assert tags == before + [BandTag(i, special)];
      if special && i == 324 && 9999 < inNumDays {
        tags := tags + [TenThousandDay];
      }
      assert tags == before + StepTags(i, inNumDays, special);
      AppendAssociative(before, StepTags(i, inNumDays, special), YearlyBand(i + 12, months, 0, inNumDays, special));
      i := i + 12;
    }
  }

  // ---------------------------------------------------------------------
  // Lemmas

  lemma AppendAssociative(a: seq<Keytag>, b: seq<Keytag>, c: seq<Keytag>)
    ensures (a + b) + c == a + (b + c)
  {
  }

  /** No elapsed days, no tags. */
  lemma NoTagsWithoutDays(numDays: int, months: int, special: bool)
    requires numDays <= 0
    ensures Tags(numDays, months, special) == []
  {
  }

  /** The yearly loop only ever emits black and the special tags. */
  lemma {:induction false} BandRanks(i: int, limit: int, shift: int, numDays: int, special: bool)
    ensures forall t :: t in YearlyBand(i, limit, shift, numDays, special) ==> Rank(t) >= 9
    decreases limit - i
  {
    if i <= limit {
      BandRanks(i + 12, limit, shift, numDays, special);
    }
  }

  /** White, orange, green and red are earned exactly past 0, 29, 59 and 89 days. */
  lemma ColourTagsExact(numDays: int, months: int, special: bool)
    ensures var t := Tags(numDays, months, special);
      && (White in t <==> 0 < numDays)
      && (Orange in t <==> 29 < numDays)
      && (Green in t <==> 59 < numDays)
      && (Red in t <==> 89 < numDays)
  {
    BandRanks(24, months - 12, 0, numDays, special);
  }

  /**
   * Past 90 days, blue, yellow, year, gray and black are earned exactly past
   * 5, 8, 11, 17 and 23 months; never at 90 days or fewer.
   */
  lemma MonthTagsExact(numDays: int, months: int, special: bool)
    ensures var t := Tags(numDays, months, special);
      && (Blue in t <==> 90 < numDays && 5 < months)
      && (Yellow in t <==> 90 < numDays && 8 < months)
      && (Year in t <==> 90 < numDays && 11 < months)
      && (Gray in t <==> 90 < numDays && 17 < months)
      && (Black in t <==> 90 < numDays && 23 < months)
  {
    var t := Tags(numDays, months, special);
    MonthTagsMembers(months);
    ColourTagsWithoutMonthTags(numDays);
    if 90 < numDays {
      var b := YearlyBand(24, months - 12, 0, numDays, special);
      assert t == ColourTags(numDays) + MonthTags(months) + b;
      BandRanks(24, months - 12, 0, numDays, special);
      if months < 36 {
        assert b == [];
      }
    } else {
      assert t == ColourTags(numDays) + [];
    }
  }

  lemma MonthTagsMembers(m: int)
    ensures (Blue in MonthTags(m) <==> 5 < m) && (Yellow in MonthTags(m) <==> 8 < m)
    ensures (Year in MonthTags(m) <==> 11 < m) && (Gray in MonthTags(m) <==> 17 < m)
    ensures Black in MonthTags(m) <==> 23 < m
  {
  }

  lemma ColourTagsWithoutMonthTags(d: int)
    ensures Blue !in ColourTags(d) && Yellow !in ColourTags(d) && Year !in ColourTags(d)
    ensures Gray !in ColourTags(d) && Black !in ColourTags(d)
  {
  }

  ghost predicate Ascending(s: seq<Keytag>)
  {
    forall j, k :: 0 <= j < k < |s| ==> Rank(s[j]) < Rank(s[k])
  }

  /** Every tag of s has a rank from lo to hi. */
  ghost predicate RanksWithin(s: seq<Keytag>, lo: int, hi: int)
  {
    forall j :: 0 <= j < |s| ==> lo <= Rank(s[j]) <= hi
  }

  lemma AppendInOrder(s: seq<Keytag>, lo: int, earned: bool, t: Keytag)
    requires Ascending(s) && RanksWithin(s, lo, Rank(t) - 1) && lo <= Rank(t)
    ensures Ascending(s + Opt(earned, t)) && RanksWithin(s + Opt(earned, t), lo, Rank(t))
  {
    var c := s + Opt(earned, t);
    assert forall j :: 0 <= j < |s| ==> c[j] == s[j];
    if earned {
      assert c[|s|] == t;
    } else {
      assert c == s;
    }
  }

  lemma AscendingConcat(a: seq<Keytag>, b: seq<Keytag>, lo: int, mid: int, hi: int)
    requires Ascending(a) && RanksWithin(a, lo, mid)
    requires Ascending(b) && RanksWithin(b, mid + 1, hi)
    requires lo <= mid < hi
    ensures Ascending(a + b) && RanksWithin(a + b, lo, hi)
  {
    var c := a + b;
    assert forall j :: 0 <= j < |a| ==> c[j] == a[j];
    assert forall k :: |a| <= k < |c| ==> c[k] == b[k - |a|];
  }

  lemma ColourTagsAscending(d: int)
    ensures Ascending(ColourTags(d)) && RanksWithin(ColourTags(d), 1, 4)
  {
    var s := Opt(0 < d, White);
    AppendInOrder(s, 1, 29 < d, Orange);
    s := s + Opt(29 < d, Orange);
    AppendInOrder(s, 1, 59 < d, Green);
    s := s + Opt(59 < d, Green);
    AppendInOrder(s, 1, 89 < d, Red);
  }

  lemma MonthTagsAscending(m: int)
    ensures Ascending(MonthTags(m)) && RanksWithin(MonthTags(m), 5, 9)
  {
    var s := Opt(5 < m, Blue);
    AppendInOrder(s, 5, 8 < m, Yellow);
    s := s + Opt(8 < m, Yellow);
    AppendInOrder(s, 5, 11 < m, Year);
    s := s + Opt(11 < m, Year);
    AppendInOrder(s, 5, 17 < m, Gray);
    s := s + Opt(17 < m, Gray);
    AppendInOrder(s, 5, 23 < m, Black);
  }

  /** The tags before the loop ascend and stay within ranks 1 to 9. */
  lemma FixedTagsAscending(numDays: int, months: int)
    ensures Ascending(FixedTags(numDays, months)) && RanksWithin(FixedTags(numDays, months), 1, 9)
  {
    ColourTagsAscending(numDays);
    if 90 < numDays {
      MonthTagsAscending(months);
      AscendingConcat(ColourTags(numDays), MonthTags(months), 1, 4, 9);
    } else {
      assert FixedTags(numDays, months) == ColourTags(numDays) + [];
    }
  }

  /**
   * The tags before the yearly loop come in strictly ascending code order,
   * and every tag of the loop ranks at or after all of them; the loop's black
   * tags repeat the fixed black one.
   */
  lemma TagsInFixedOrder(numDays: int, months: int, special: bool)
    ensures Ascending(FixedTags(numDays, months))
    ensures var f := FixedTags(numDays, months);
      var t := Tags(numDays, months, special);
      t[..|f|] == f && forall j, k :: 0 <= j < |f| <= k < |t| ==> Rank(t[j]) <= Rank(t[k])
  {
    var f := FixedTags(numDays, months);
    FixedTagsAscending(numDays, months);
    var t := Tags(numDays, months, special);
    var b := if 90 < numDays then YearlyBand(24, months - 12, 0, numDays, special) else [];
    BandRanks(24, months - 12, 0, numDays, special);
    assert t == f + b;
    forall j, k | 0 <= j < |f| <= k < |t|
      ensures Rank(t[j]) <= Rank(t[k])
    {
      assert t[j] == f[j];
      assert t[k] == b[k - |f|] && b[k - |f|] in b;
    }
  }

  /** The 10,000-day tag removed: what is left of a band is its step tags. */
  function WithoutTenK(s: seq<Keytag>): (r: seq<Keytag>)
    ensures TenThousandDay !in r
  {
    if s == [] then []
    else (if s[0] == TenThousandDay then [] else [s[0]]) + WithoutTenK(s[1..])
  }

  lemma {:induction false} WithoutTenKAppend(a: seq<Keytag>, b: seq<Keytag>)
    ensures WithoutTenK(a + b) == WithoutTenK(a) + WithoutTenK(b)
  {
    if a == [] {
      assert a + b == b;
    } else {
      WithoutTenKAppend(a[1..], b);
      var h := if a[0] == TenThousandDay then [] else [a[0]];
      assert (a + b)[0] == a[0] && (a + b)[1..] == a[1..] + b;
      assert WithoutTenK(a + b) == h + WithoutTenK(a[1..] + b);
      assert WithoutTenK(a) == h + WithoutTenK(a[1..]);
      AppendAssociative(h, WithoutTenK(a[1..]), WithoutTenK(b));
    }
  }

  /** A tag for mark m put before the tags for marks m + 12, m + 24, ... gives the tags for m, m + 12, ... */
  lemma MarksCons(x: Keytag, tail: seq<Keytag>, mark: int, next: int, special: bool)
    requires next == mark + 12 && x == BandTag(mark, special)
    requires forall j :: 0 <= j < |tail| ==> tail[j] == BandTag(next + 12 * j, special)
    ensures forall j :: 0 <= j < |[x] + tail| ==> ([x] + tail)[j] == BandTag(mark + 12 * j, special)
  {
    forall j | 1 <= j < |[x] + tail|
      ensures ([x] + tail)[j] == BandTag(mark + 12 * j, special)
    {
      assert ([x] + tail)[j] == tail[j - 1];
      assert next + 12 * (j - 1) == mark + 12 * j;
    }
  }

  /** The tags of n loop steps from mark on, without the 10,000-day tag. */
  function StepMarks(mark: int, n: nat, special: bool): seq<Keytag>
    decreases n
  {
    if n == 0 then [] else [BandTag(mark, special)] + StepMarks(mark + 12, n - 1, special)
  }

  lemma {:induction false} StepMarksIndex(mark: int, n: nat, special: bool)
    ensures |StepMarks(mark, n, special)| == n
    ensures forall j :: 0 <= j < n ==> StepMarks(mark, n, special)[j] == BandTag(mark + 12 * j, special)
    decreases n
  {
    if n > 0 {
      StepMarksIndex(mark + 12, n - 1, special);
      MarksCons(BandTag(mark, special), StepMarks(mark + 12, n - 1, special), mark, mark + 12, special);
    }
  }

  /** Removing the 10,000-day tag from a band leaves one tag per step. */
  lemma {:induction false} BandMarks(i: int, limit: int, shift: int, numDays: int, special: bool)
    ensures WithoutTenK(YearlyBand(i, limit, shift, numDays, special)) == StepMarks(i + shift, StepCount(i, limit), special)
    decreases limit - i
  {
    if i <= limit {
      BandMarks(i + 12, limit, shift, numDays, special);
      var rest := YearlyBand(i + 12, limit, shift, numDays, special);
      var head := StepTags(i + shift, numDays, special);
      assert YearlyBand(i, limit, shift, numDays, special) == head + rest;
      WithoutTenKAppend(head, rest);
      StepTagsWithoutTenK(i + shift, numDays, special);
      var n := StepCount(i, limit);
      assert n == StepCount(i + 12, limit) + 1 by {
        if i + 12 <= limit {
          assert (limit - i) / 12 == (limit - (i + 12)) / 12 + 1;
        }
      }
      var next := i + 12 + shift;
      assert next == i + shift + 12;
      assert StepMarks(i + shift, n, special) == [BandTag(i + shift, special)] + StepMarks(next, n - 1, special);
      assert WithoutTenK(head + rest) == [BandTag(i + shift, special)] + StepMarks(next, n - 1, special);
    } else {
      assert YearlyBand(i, limit, shift, numDays, special) == [] && StepCount(i, limit) == 0;
    }
  }

  /** One step's tags without the 10,000-day tag: its band tag alone. */
  lemma StepTagsWithoutTenK(mark: int, numDays: int, special: bool)
    ensures WithoutTenK(StepTags(mark, numDays, special)) == [BandTag(mark, special)]
  {
    var h := StepTags(mark, numDays, special);
    assert h[0] == BandTag(mark, special) != TenThousandDay;
    if |h| == 2 {
      assert h[1..] == [TenThousandDay] && WithoutTenK(h[1..][1..]) == [];
    } else {
      assert h[1..] == [];
    }
  }

  /** The band's step tags, one per loop step, are BandTag of the step marks. */
  lemma BandSteps(i: int, limit: int, shift: int, numDays: int, special: bool)
    ensures var w := WithoutTenK(YearlyBand(i, limit, shift, numDays, special));
      && |w| == StepCount(i, limit)
      && forall j :: 0 <= j < |w| ==> w[j] == BandTag(i + shift + 12 * j, special)
  {
    BandMarks(i, limit, shift, numDays, special);
    StepMarksIndex(i + shift, StepCount(i, limit), special);
  }

  /** The as-written four checks amount to three: the repeated 300 check never fires. */
  lemma BandTagChecks(mark: int, special: bool)
    ensures BandTag(mark, special) ==
      if !special then Black
      else if mark == 120 then Decade
      else if mark == 300 then TwentyFiveYear
      else if mark % 360 == 0 then ThirtyYear
      else Black
  {
  }

  /** A band from a multiple of 12 holds one 10,000-day tag exactly when step 324 - shift is in it. */
  lemma {:induction false} BandLength(i: int, limit: int, shift: int, numDays: int, special: bool)
    requires i % 12 == 0 && shift % 12 == 0
    ensures |YearlyBand(i, limit, shift, numDays, special)|
         == StepCount(i, limit) + (if special && 9999 < numDays && i + shift <= 324 <= limit + shift then 1 else 0)
    decreases limit - i
  {
    if i <= limit {
      BandLength(i + 12, limit, shift, numDays, special);
    }
  }

  /** The 10,000-day tag of a band, if any, directly follows the tag of step 324 - shift. */
  lemma {:induction false} TenKPlace(i: int, limit: int, shift: int, numDays: int, special: bool)
    requires i % 12 == 0 && shift % 12 == 0
    ensures var b := YearlyBand(i, limit, shift, numDays, special);
      && (TenThousandDay in b <==> special && 9999 < numDays && i + shift <= 324 <= limit + shift)
      && forall k :: 0 <= k < |b| && b[k] == TenThousandDay ==>
           k == (324 - shift - i) / 12 + 1 && b[k - 1] == BandTag(324, special)
    decreases limit - i
  {
    if i <= limit {
      TenKPlace(i + 12, limit, shift, numDays, special);
      var b := YearlyBand(i, limit, shift, numDays, special);
      var head := StepTags(i + shift, numDays, special);
      var rest := YearlyBand(i + 12, limit, shift, numDays, special);
      assert b == head + rest;
      if i + shift < 324 {
        assert i + shift + 12 <= 324 by {
          assert (i + shift) % 12 == 0;
        }
        assert head == [BandTag(i + shift, special)] && head[0] != TenThousandDay;
        TenKAfterPrefix(head, rest);
        forall k | 0 <= k < |b| && b[k] == TenThousandDay
          ensures k == (324 - shift - i) / 12 + 1 && b[k - 1] == BandTag(324, special)
        {
          assert rest[k - 1] == TenThousandDay;
          assert k - 1 == (324 - shift - (i + 12)) / 12 + 1;
          assert (324 - shift - i) / 12 == (324 - shift - (i + 12)) / 12 + 1;
          assert b[k - 1] == rest[k - 2];
        }
      } else if i + shift == 324 {
        assert TenThousandDay !in rest;
        assert head[0] == BandTag(324, special) != TenThousandDay;
        assert forall k :: |head| <= k < |b| ==> b[k] == rest[k - |head|] && b[k] != TenThousandDay;
        forall k | 0 <= k < |b| && b[k] == TenThousandDay
          ensures k == (324 - shift - i) / 12 + 1 && b[k - 1] == BandTag(324, special)
        {
          assert k < |head| && b[k] == head[k];
          assert k == 1;
        }
      } else {
        assert TenThousandDay !in rest;
        assert head == [BandTag(i + shift, special)] && head[0] != TenThousandDay;
        TenKAfterPrefix(head, rest);
      }
    }
  }

  /** Steps of the as-written loop: none below 36 months, then one per year beyond two. */
  lemma StepsOfMonths(months: int)
    ensures StepCount(24, months - 12) == if months / 12 - 2 > 0 then months / 12 - 2 else 0
  {
    if months >= 36 {
      assert (months - 36) / 12 == months / 12 - 3;
    }
  }

  /**
   * Past 90 days the yearly loop emits max(0, months / 12 - 2) band tags, plus
   * the 10,000-day tag with special tags on, over 9999 days and at 336 months or more.
   */
  lemma BandTagCount(numDays: int, months: int, special: bool)
    requires 90 < numDays
    ensures var steps := if months / 12 - 2 > 0 then months / 12 - 2 else 0;
      && |Tags(numDays, months, special)|
         == |FixedTags(numDays, months)| + steps + (if special && 9999 < numDays && 336 <= months then 1 else 0)
      && |WithoutTenK(YearlyBand(24, months - 12, 0, numDays, special))| == steps
  {
    BandLength(24, months - 12, 0, numDays, special);
    BandSteps(24, months - 12, 0, numDays, special);
    StepsOfMonths(months);
  }

  /** With special tags off every band tag is black. */
  lemma BandAllBlackWithoutSpecial(numDays: int, months: int)
    requires 90 < numDays
    ensures var b := YearlyBand(24, months - 12, 0, numDays, false);
      |b| == StepCount(24, months - 12) && forall j :: 0 <= j < |b| ==> b[j] == Black
  {
    BandSteps(24, months - 12, 0, numDays, false);
    NoTenKWithoutSpecial(24, months - 12, numDays);
  }

  lemma {:induction false} NoTenKWithoutSpecial(i: int, limit: int, numDays: int)
    ensures WithoutTenK(YearlyBand(i, limit, 0, numDays, false)) == YearlyBand(i, limit, 0, numDays, false)
    decreases limit - i
  {
    if i <= limit {
      NoTenKWithoutSpecial(i + 12, limit, numDays);
      WithoutTenKAppend(StepTags(i, numDays, false), YearlyBand(i + 12, limit, 0, numDays, false));
    }
  }

  /**
   * With special tags on, step i of the loop emits exactly one band tag: the
   * decade tag at 120, the 25-year tag at 300, the 30-year tag at other
   * multiples of 360, and black otherwise.
   */
  lemma BandWithSpecial(numDays: int, months: int)
    requires 90 < numDays
    ensures var b := WithoutTenK(YearlyBand(24, months - 12, 0, numDays, true));
      && |b| == StepCount(24, months - 12)
      && forall j :: 0 <= j < |b| ==>
           var i := 24 + 12 * j;
           b[j] == (if i == 120 then Decade else if i == 300 then TwentyFiveYear
                    else if i % 360 == 0 then ThirtyYear else Black)
  {
    BandSteps(24, months - 12, 0, numDays, true);
  }

  /**
   * The 10,000-day tag is an extra tag, present exactly with special tags on,
   * over 9999 days and at 336 months or more, and then only once, right after
   * the black tag of step 324.
   */
  lemma TenThousandDayTag(numDays: int, months: int, special: bool)
    ensures var t := Tags(numDays, months, special);
      var f := FixedTags(numDays, months);
      && (TenThousandDay in t <==> special && 9999 < numDays && 336 <= months)
      && forall k :: 0 <= k < |t| && t[k] == TenThousandDay ==> k == |f| + 26 && t[k - 1] == Black
  {
    var t := Tags(numDays, months, special);
    var f := FixedTags(numDays, months);
    FixedTagsAscending(numDays, months);
    assert forall k :: 0 <= k < |f| ==> f[k] != TenThousandDay;
    if 90 < numDays {
      var b := YearlyBand(24, months - 12, 0, numDays, special);
      assert t == f + b;
      TenKPlace(24, months - 12, 0, numDays, special);
      assert BandTag(324, special) == Black;
      TenKAfterPrefix(f, b);
      forall k | 0 <= k < |t| && t[k] == TenThousandDay
        ensures k == |f| + 26 && t[k - 1] == Black
      {
        assert b[k - |f|] == TenThousandDay;
        assert k - |f| == 26;
        assert t[k - 1] == b[k - 1 - |f|];
      }
    } else {
      assert t == f;
    }
  }

  /** A prefix without the 10,000-day tag leaves every occurrence of it to the suffix. */
  lemma TenKAfterPrefix(f: seq<Keytag>, b: seq<Keytag>)
    requires forall k :: 0 <= k < |f| ==> f[k] != TenThousandDay
    ensures TenThousandDay in f + b <==> TenThousandDay in b
    ensures forall k :: 0 <= k < |f + b| && (f + b)[k] == TenThousandDay ==>
      |f| <= k && b[k - |f|] == TenThousandDay
    ensures forall j :: |f| <= j < |f + b| ==> (f + b)[j] == b[j - |f|]
  {
    var c := f + b;
    assert forall k :: 0 <= k < |f| ==> c[k] == f[k];
    assert forall k :: |f| <= k < |c| ==> c[k] == b[k - |f|];
  }

  /** As written, the decade tag appears only from 132 months (11 years) on. */
  lemma DecadeTagAsWritten(numDays: int, months: int, special: bool)
    ensures Decade in Tags(numDays, months, special) <==> special && 90 < numDays && 132 <= months
  {
    var f := FixedTags(numDays, months);
    var b := if 90 < numDays then YearlyBand(24, months - 12, 0, numDays, special) else [];
    assert Tags(numDays, months, special) == f + b;
    FixedTagsAscending(numDays, months);
    assert forall k :: 0 <= k < |f| ==> f[k] != Decade;
    assert Decade in f + b <==> Decade in b;
    if 90 < numDays {
      DecadeInBand(24, months - 12, 0, numDays, special);
    }
  }

  lemma {:induction false} DecadeInBand(i: int, limit: int, shift: int, numDays: int, special: bool)
    requires i % 12 == 0 && shift % 12 == 0
    ensures Decade in YearlyBand(i, limit, shift, numDays, special) <==> special && i + shift <= 120 <= limit + shift
    decreases limit - i
  {
    if i <= limit {
      DecadeInBand(i + 12, limit, shift, numDays, special);
    }
  }

  // ---------------------------------------------------------------------
  // The special tags one year late, and the selection with the intended marks

  /** A ten-year span (3653 days, 120 months) gets no decade tag; 10,001 days over 328 months get no 10,000-day tag. */
  lemma SpecialTagsLateExample()
    ensures Decade !in Tags(3653, 120, true)
    ensures TenThousandDay !in Tags(10001, 328, true)
  {
    DecadeTagAsWritten(3653, 120, true);
    TenThousandDayTag(10001, 328, true);
  }

  /** The selection with each special check applied to the month count the step stands for. */
  function IntendedTags(numDays: int, months: int, special: bool): seq<Keytag>
  {
    FixedTags(numDays, months) + (if 90 < numDays then YearlyBand(24, months - 12, 12, numDays, special) else [])
  }

  /**
   * With the intended marks the decade tag comes at 120 months and the
   * 10,000-day tag once 9999 days are passed from 324 months on, the band still
   * holding one tag per year beyond two.
   */
  lemma IntendedSpecialTagsOnTime(numDays: int, months: int, special: bool)
    ensures var t := IntendedTags(numDays, months, special);
      && (Decade in t <==> special && 90 < numDays && 120 <= months)
      && (TenThousandDay in t <==> special && 9999 < numDays && 324 <= months)
      && (90 < numDays ==> |WithoutTenK(YearlyBand(24, months - 12, 12, numDays, special))|
                           == if months / 12 - 2 > 0 then months / 12 - 2 else 0)
  {
    var f := FixedTags(numDays, months);
    assert Decade !in f && TenThousandDay !in f;
    DecadeInBand(24, months - 12, 12, numDays, special);
    TenKPlace(24, months - 12, 12, numDays, special);
    BandSteps(24, months - 12, 12, numDays, special);
    StepsOfMonths(months);
  }
}
