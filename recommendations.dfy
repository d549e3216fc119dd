/** The "For You" page (src/pages/Recommendations.tsx): finished series rated 8 or more, best
    first with ties in collection order, at most ten, and the text of the shared list. */
module Recommendations {
  import opened Wrappers
  import opened Types
  import opened Seqs
  import opened JsString

  /** At most this many recommendations are shown. */
  const MaxRecommendations: nat := 10

  /** The rating threshold, 8 out of 10, in half-points. */
  const MinRating: HalfPoints := 16

  /** A record is recommendable when it is finished and rated at least 8. */
  predicate Qualifies(x: Series) {
    x.status == Finished && x.rating >= MinRating
  }

  /** The qualifying records, in collection order. */
  function Qualifying(series: seq<Series>): (r: seq<Series>)
    ensures |r| <= |series|
  {
    Filter(series, Qualifies)
  }

  /** Ratings never increase along `s`. */
  ghost predicate SortedDesc(s: seq<Series>) {
    forall i, j :: 0 <= i < j < |s| ==> s[i].rating >= s[j].rating
  }

  /** The records of `s` with rating `k`, in their order in `s`. */
  function WithRating(s: seq<Series>, k: HalfPoints): (r: seq<Series>)
    ensures |r| <= |s|
  {
    Filter(s, (x: Series) => x.rating == k)
  }

  /** Places `x` before the first record rated no higher than it, so `x` stays ahead of the
      equally rated records that follow it. */
  function Insert(x: Series, s: seq<Series>): (r: seq<Series>)
    ensures multiset(r) == multiset(s) + multiset{x}
  {
    if |s| == 0 || s[0].rating <= x.rating then [x] + s
    else
      assert s == [s[0]] + s[1..];
      [s[0]] + Insert(x, s[1..])
  }

  /** Stable sort by descending rating (Array.prototype.sort with `b.rating - a.rating`, which
      ECMAScript 2019 and later require to be stable), as an insertion sort. */
  function SortByRating(s: seq<Series>): (r: seq<Series>)
    ensures multiset(r) == multiset(s)
  {
    if |s| == 0 then []
    else
      assert s == [s[0]] + s[1..];
      Insert(s[0], SortByRating(s[1..]))
  }

  /** The recommendation list: qualifying, sorted, sliced to ten. */
  function Recommend(series: seq<Series>): (r: seq<Series>)
    ensures |r| <= MaxRecommendations
  {
    Take(SortByRating(Qualifying(series)), MaxRecommendations)
  }

  /** The qualifying records the slice cuts off. */
  function LeftOut(series: seq<Series>): seq<Series> {
    var sorted := SortByRating(Qualifying(series));
    if |sorted| <= MaxRecommendations then [] else sorted[MaxRecommendations..]
  }

  lemma {:induction false} InsertSorted(x: Series, s: seq<Series>)
    requires SortedDesc(s)
    ensures SortedDesc(Insert(x, s))
  {
    if |s| > 0 && s[0].rating > x.rating {
      InsertSorted(x, s[1..]);
      var r := Insert(x, s);
      var tail := Insert(x, s[1..]);
      assert r == [s[0]] + tail;
      forall j | 0 <= j < |tail| ensures s[0].rating >= tail[j].rating {
        assert tail[j] in multiset(tail);
        assert tail[j] == x || tail[j] in multiset(s[1..]);
        if tail[j] != x {
          var m :| 0 <= m < |s[1..]| && s[1..][m] == tail[j];
          assert s[m + 1] == tail[j];
        }
      }
    }
  }

  /** Insertion keeps, for every rating, the order of the records with that rating, and puts `x`
      ahead of those equal to it. */
  lemma {:induction false} InsertStable(x: Series, s: seq<Series>, k: HalfPoints)
    ensures WithRating(Insert(x, s), k) == (if x.rating == k then [x] else []) + WithRating(s, k)
  {
    if |s| == 0 || s[0].rating <= x.rating {
      WithRatingCons(x, s, k);
    } else {
      InsertStable(x, s[1..], k);
      WithRatingCons(s[0], Insert(x, s[1..]), k);
      WithRatingCons(s[0], s[1..], k);
      assert [s[0]] + s[1..] == s;
    }
  }

  /** The records of rating `k` in a sequence with head `y`: `y` if it has that rating, then those of the rest. */
  lemma WithRatingCons(y: Series, t: seq<Series>, k: HalfPoints)
    ensures WithRating([y] + t, k) == (if y.rating == k then [y] else []) + WithRating(t, k)
  {
    assert ([y] + t)[1..] == t;
  }

  /** The sort orders by descending rating. */
  lemma {:induction false} SortByRatingSorted(s: seq<Series>)
    ensures SortedDesc(SortByRating(s))
  {
    if |s| > 0 {
      SortByRatingSorted(s[1..]);
      InsertSorted(s[0], SortByRating(s[1..]));
    }
  }

  /** The sort is stable: the records with any one rating come out in the order they went in. */
  lemma {:induction false} SortByRatingStable(s: seq<Series>, k: HalfPoints)
    ensures WithRating(SortByRating(s), k) == WithRating(s, k)
  {
    if |s| > 0 {
      SortByRatingStable(s[1..], k);
      InsertStable(s[0], SortByRating(s[1..]), k);
      WithRatingCons(s[0], s[1..], k);
      assert [s[0]] + s[1..] == s;
    }
  }

  /** Every recommendation is a finished series rated at least 8, there are at most ten, and they
      come best first. */
  lemma RecommendSound(series: seq<Series>)
    ensures forall x :: x in Recommend(series) ==> x in series && Qualifies(x)
    ensures |Recommend(series)| <= MaxRecommendations
    ensures SortedDesc(Recommend(series))
  {
    var q := Qualifying(series);
    var sorted := SortByRating(q);
    SortByRatingSorted(q);
    forall x | x in Recommend(series) ensures x in series && Qualifies(x) {
      assert x in multiset(sorted);
      FilterMembership(series, Qualifies, x);
    }
  }

  /** The sorted qualifying records are the recommendations followed by the left-out ones. */
  lemma SortedIsRecommendThenLeftOut(series: seq<Series>)
    ensures SortByRating(Qualifying(series)) == Recommend(series) + LeftOut(series)
  {
    var sorted := SortByRating(Qualifying(series));
    if |sorted| <= MaxRecommendations {
      assert Recommend(series) == sorted && LeftOut(series) == [];
    } else {
      assert sorted == sorted[..MaxRecommendations] + sorted[MaxRecommendations..];
    }
  }

  /** Nothing qualifying is lost: the recommendations and the left-out records together are the
      qualifying ones, and with at most ten qualifying records all of them are recommended. */
  lemma RecommendComplete(series: seq<Series>)
    ensures multiset(Recommend(series)) + multiset(LeftOut(series)) == multiset(Qualifying(series))
    ensures |Qualifying(series)| <= MaxRecommendations ==>
      multiset(Recommend(series)) == multiset(Qualifying(series)) && LeftOut(series) == []
  {
    var q := Qualifying(series);
    SortedIsRecommendThenLeftOut(series);
    assert multiset(SortByRating(q)) == multiset(Recommend(series)) + multiset(LeftOut(series));
  }

  /** Every qualifying record left out is rated no higher than any recommendation. */
  lemma LeftOutRatedNoHigher(series: seq<Series>)
    ensures forall x, y :: x in LeftOut(series) && y in Recommend(series) ==> x.rating <= y.rating
  {
    SortedIsRecommendThenLeftOut(series);
    SortByRatingSorted(Qualifying(series));
    SortedHalves(Recommend(series), LeftOut(series));
  }

  /** In a sorted concatenation nothing in the second half is rated above anything in the first. */
  lemma SortedHalves(a: seq<Series>, b: seq<Series>)
    requires SortedDesc(a + b)
    ensures forall x, y :: x in b && y in a ==> x.rating <= y.rating
  {
    forall x, y | x in b && y in a ensures x.rating <= y.rating {
      var i :| 0 <= i < |a| && a[i] == y;
      var j :| 0 <= j < |b| && b[j] == x;
      assert (a + b)[i] == y && (a + b)[|a| + j] == x;
    }
  }

  /** Among equally rated recommendations the collection order is kept: for every rating, the
      recommendations with it are the first ones of the qualifying records with it. */
  lemma RecommendKeepsTies(series: seq<Series>, k: HalfPoints)
    ensures StartsWithSeq(WithRating(Qualifying(series), k), WithRating(Recommend(series), k))
  {
    var q := Qualifying(series);
    SortByRatingStable(q, k);
    SortedIsRecommendThenLeftOut(series);
    WithRatingAppend(Recommend(series), LeftOut(series), k);
  }

  /** Selecting by rating commutes with appending. */
  lemma {:induction false} WithRatingAppend(a: seq<Series>, b: seq<Series>, k: HalfPoints)
    ensures WithRating(a + b, k) == WithRating(a, k) + WithRating(b, k)
  {
    if |a| == 0 {
      assert a + b == b;
    } else {
      WithRatingAppend(a[1..], b, k);
      assert (a + b)[1..] == a[1..] + b;
      assert WithRating(a + b, k) == (if a[0].rating == k then [a[0]] else []) + WithRating(a[1..] + b, k);
    }
  }

  /** `p` is a prefix of `s`. */
  ghost predicate StartsWithSeq(s: seq<Series>, p: seq<Series>) {
    |p| <= |s| && s[..|p|] == p
  }

  /** The share button is offered exactly when some record qualifies. */
  lemma ShareOfferedIffQualifying(series: seq<Series>)
    ensures |Recommend(series)| > 0 <==> exists x :: x in series && Qualifies(x)
  {
    var q := Qualifying(series);
    if |q| > 0 {
      FilterMembership(series, Qualifies, q[0]);
    }
    forall x | x in series && Qualifies(x) ensures |q| > 0 {
      FilterMembership(series, Qualifies, x);
    }
  }

  /** The rating as JavaScript prints it: 8.5 as "8.5", 9 as "9". */
  function RatingText(h: HalfPoints): (t: string)
    ensures |t| >= 1 && '\n' !in t
  {
    var a := if h < 0 then -h else h;
    var whole := NatToText(a / 2);
    (if h < 0 then "-" else "") + whole + (if a % 2 == 1 then ".5" else "")
  }

  /** Decimal digits only, at least one. */
  predicate IsDigits(t: string) {
    |t| >= 1 && forall i :: 0 <= i < |t| ==> '0' <= t[i] <= '9'
  }

  /** Reads a non-negative rating text, "n" or "n.5", back as half-points; any other text is none. */
  function ReadRating(t: string): (r: Option<HalfPoints>)
    ensures r.Some? ==> r.value >= 0
  {
    var parts := Split(t, '.');
    if |parts| == 1 && IsDigits(parts[0]) then Some(2 * TextToNat(parts[0]))
    else if |parts| == 2 && IsDigits(parts[0]) && parts[1] == "5" then Some(2 * TextToNat(parts[0]) + 1)
    else None
  }

  /** The share text writes the rating it is given: read back, the text of a non-negative rating is
      that rating. */
  lemma RatingTextRoundTrip(h: nat)
    ensures ReadRating(RatingText(h)) == Some(h)
  {
    var n := h / 2;
    if h % 2 == 1 {
      assert h == 2 * n + 1;
      HalfRoundTrip(n);
    } else {
      assert h == 2 * n;
      WholeRoundTrip(n);
    }
  }

  /** An even half-point count is written as its whole points alone, and reads back. */
  lemma WholeRoundTrip(n: nat)
    ensures ReadRating(RatingText(2 * n)) == Some(2 * n)
  {
    var w := NatToText(n);
    NatToTextRoundTrip(n);
    assert RatingText(2 * n) == "" + w + "";
    assert "" + w + "" == w;
    ReadWhole(w);
  }

  /** An odd half-point count is written as its whole points and ".5", and reads back. */
  lemma HalfRoundTrip(n: nat)
    ensures ReadRating(RatingText(2 * n + 1)) == Some(2 * n + 1)
  {
    var w := NatToText(n);
    NatToTextRoundTrip(n);
    assert RatingText(2 * n + 1) == "" + w + ".5";
    assert "" + w + ".5" == w + ".5";
    ReadHalf(w);
  }

  /** Digits alone read as a whole rating. */
  lemma ReadWhole(w: string)
    requires IsDigits(w)
    ensures ReadRating(w) == Some(2 * TextToNat(w))
  {
    assert forall i :: 0 <= i < |w| ==> w[i] != '.';
    SplitNoSeparator(w, '.');
  }

  /** Digits followed by ".5" read as a rating half a point above them. */
  lemma ReadHalf(w: string)
    requires IsDigits(w)
    ensures ReadRating(w + ".5") == Some(2 * TextToNat(w) + 1)
  {
    assert forall i :: 0 <= i < |w| ==> w[i] != '.';
    assert w + ".5" == w + ['.'] + "5";
    SplitAtSeparator(w, '.', "5");
    SplitNoSeparator("5", '.');
  }

  /** The header of the shared list. */
  const ShareHeader: string := "My Top Turkish Series:"

  /** Line `n` of the shared list: "n. title (rating/10)". */
  function ShareLine(n: nat, x: Series): (line: string)
    ensures '\n' !in x.title ==> '\n' !in line
  {
    NatToText(n) + ". " + x.title + " (" + RatingText(x.rating) + "/10)"
  }

  /** One line per recommendation, numbered from 1. */
  function ShareLines(recs: seq<Series>): (lines: seq<string>)
    ensures |lines| == |recs|
  {
    seq(|recs|, i requires 0 <= i < |recs| => ShareLine(i + 1, recs[i]))
  }

  /** handleShareList's text: the header, a blank line, then the numbered lines joined by newlines. */
  function ShareText(recs: seq<Series>): string {
    ShareHeader + "\n\n" + Join(ShareLines(recs), "\n")
  }

  /** Read line by line, the shared text is the header, a blank line, and line i + 1 naming the
      i-th recommendation, its title and its rating, provided no title spans lines. */
  lemma ShareTextLines(recs: seq<Series>)
    requires |recs| > 0
    requires forall i :: 0 <= i < |recs| ==> '\n' !in recs[i].title
    ensures Split(ShareText(recs), '\n') == [ShareHeader, ""] + ShareLines(recs)
  {
    var lines := ShareLines(recs);
    ShareTextHead(Join(lines, "\n"));
    forall i | 0 <= i < |lines| ensures '\n' !in lines[i] {
      assert lines[i] == ShareLine(i + 1, recs[i]);
    }
    assert "\n" == ['\n'];
    SplitJoinRoundTrip(lines, '\n');
  }

  /** The header and the blank line come first, whatever follows. */
  lemma ShareTextHead(body: string)
    ensures Split(ShareHeader + "\n\n" + body, '\n') == [ShareHeader, ""] + Split(body, '\n')
  {
    assert ShareHeader + "\n\n" + body == ShareHeader + ['\n'] + ("" + ['\n'] + body);
    SplitAtSeparator(ShareHeader, '\n', "" + ['\n'] + body);
    SplitAtSeparator("", '\n', body);
  }

  /** With no recommendation the shared text is the header and two empty lines. */
  lemma ShareTextEmpty()
    ensures Split(ShareText([]), '\n') == [ShareHeader, "", ""]
  {
    ShareTextHead("");
  }
}
