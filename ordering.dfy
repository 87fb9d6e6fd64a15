/**
 * `sorted(videos, key=lambda x: x['published_at'])` of script.py: Python
 * compares the keys as strings, character by character, and its sort is
 * stable. Here the same order and a stable insertion sort.
 */
module Ordering {

  /** A video as the YouTube search returns it (`_get_new_videos`). */
  datatype Video = Video(id: string, title: string, publishedAt: string)

  /** Python's `a <= b` on strings: lexicographic by code point, a prefix first. */
  predicate StrLe(a: string, b: string)
    decreases |a|
  {
    a == [] || (b != [] && (a[0] < b[0] || (a[0] == b[0] && StrLe(a[1..], b[1..]))))
  }

  lemma {:induction false} StrLeTotal(a: string, b: string)
    ensures StrLe(a, b) || StrLe(b, a)
    decreases |a|
  {
    if a != [] && b != [] && a[0] == b[0] {
      StrLeTotal(a[1..], b[1..]);
    }
  }

  lemma {:induction false} StrLeTrans(a: string, b: string, c: string)
    requires StrLe(a, b) && StrLe(b, c)
    ensures StrLe(a, c)
    decreases |a|
  {
    if a != [] && a[0] == b[0] && b[0] == c[0] {
      StrLeTrans(a[1..], b[1..], c[1..]);
    }
  }

  predicate Before(v: Video, w: Video) {
    StrLe(v.publishedAt, w.publishedAt)
  }

  /** Each video is published no later than the next one. */
  predicate Sorted(s: seq<Video>) {
    |s| <= 1 || (Before(s[0], s[1]) && Sorted(s[1..]))
  }

  /**
   * Puts v into a sorted list after every video published no later than
   * v: equal keys keep their arrival order, which makes the sort stable.
   */
  function Insert(v: Video, s: seq<Video>): (r: seq<Video>)
    ensures |r| == |s| + 1
    ensures r[0] == v || (s != [] && r[0] == s[0])
  {
    if s == [] || !Before(s[0], v) then [v] + s
    else [s[0]] + Insert(v, s[1..])
  }

  /** `sorted(videos, key=published_at)`. */
  function SortByPublished(vs: seq<Video>): (r: seq<Video>)
    ensures |r| == |vs|
  {
    if |vs| == 0 then []
    else Insert(vs[|vs| - 1], SortByPublished(vs[..|vs| - 1]))
  }

  lemma {:induction false} InsertSorted(v: Video, s: seq<Video>)
    requires Sorted(s)
    ensures Sorted(Insert(v, s))
  {
    if s != [] && Before(s[0], v) {
      var r := Insert(v, s[1..]);
      InsertSorted(v, s[1..]);
      assert ([s[0]] + r)[1..] == r;
      if r[0] != v {
        assert |s| >= 2 && r[0] == s[1];
      }
    } else if s != [] {
      StrLeTotal(v.publishedAt, s[0].publishedAt);
      assert ([v] + s)[1..] == s;
    }
  }

  lemma {:induction false} InsertPermutes(v: Video, s: seq<Video>)
    ensures multiset(Insert(v, s)) == multiset(s) + multiset{v}
  {
    if s != [] && Before(s[0], v) {
      InsertPermutes(v, s[1..]);
      assert s == [s[0]] + s[1..];
    }
  }

  /** The sort orders the videos by publication time... */
  lemma {:induction false} SortByPublishedSorted(vs: seq<Video>)
    ensures Sorted(SortByPublished(vs))
  {
    if vs != [] {
      var n := |vs| - 1;
      SortByPublishedSorted(vs[..n]);
      InsertSorted(vs[n], SortByPublished(vs[..n]));
    }
  }

  /** ...and loses or adds none. */
  lemma {:induction false} SortByPublishedPermutes(vs: seq<Video>)
    ensures multiset(SortByPublished(vs)) == multiset(vs)
  {
    if vs != [] {
      var n := |vs| - 1;
      var init := SortByPublished(vs[..n]);
      SortByPublishedPermutes(vs[..n]);
      InsertPermutes(vs[n], init);
      calc {
        multiset(vs);
        { assert vs == vs[..n] + [vs[n]]; }
        multiset(vs[..n]) + multiset{vs[n]};
        multiset(init) + multiset{vs[n]};
      }
    }
  }

  /** In a sorted list the last video is published no earlier than any other. */
  lemma {:induction false} LastIsLatest(s: seq<Video>, v: Video)
    requires Sorted(s) && v in s
    ensures Before(v, s[|s| - 1])
  {
    if |s| == 1 {
      StrLeTotal(v.publishedAt, v.publishedAt);
    } else if v == s[0] {
      LastIsLatest(s[1..], s[1]);
      StrLeTrans(v.publishedAt, s[1].publishedAt, s[|s| - 1].publishedAt);
    } else {
      assert v in s[1..];
      LastIsLatest(s[1..], v);
    }
  }

  /** The video attempted last is one of the new videos and the latest of them. */
  lemma LatestAttemptedLast(vs: seq<Video>)
    requires vs != []
    ensures var s := SortByPublished(vs);
      && |s| == |vs| && s[|s| - 1] in vs
      && forall v | v in vs :: Before(v, s[|s| - 1])
  {
    var s := SortByPublished(vs);
    SortByPublishedSorted(vs);
    SortByPublishedPermutes(vs);
    assert |s| == |multiset(s)| == |multiset(vs)| == |vs|;
    assert s[|s| - 1] in multiset(vs);
    forall v | v in vs
      ensures Before(v, s[|s| - 1])
    {
      assert v in multiset(s);
      LastIsLatest(s, v);
    }
  }
}
