/** Cleaned absolute remote paths and the "same tree or nested" order on them.

    A path is its text, one char per byte. `Contains` is the lexical test that
    the advisory uses; the lemmas below show that it is the prefix order on
    path segments, and that this order is a forest. */
module Paths {
  import opened Text

  const ROOT := "/"

  /** What filepath.Clean leaves of an absolute path, as far as containment can see:
      it starts with a slash, has no empty segment and no trailing slash. */
  predicate Clean(p: string) {
    && |p| > 0
    && p[0] == '/'
    && (forall i :: 0 <= i < |p| - 1 && p[i] == '/' ==> p[i + 1] != '/')
    && (|p| > 1 ==> p[|p| - 1] != '/')
  }

  /** Root.Contains: `p` is the tree rooted at `root` itself or lies below it. */
  predicate Contains(root: string, p: string) {
    root == p || (if root == ROOT then root else root + "/") <= p
  }

  predicate Overlaps(a: string, b: string) {
    Contains(a, b) || Contains(b, a)
  }

  /** A containing path is shorter as text, unless it is the same path. */
  lemma {:induction false} ContainsIsShorter(a: string, b: string)
    requires Clean(a) && Clean(b) && Contains(a, b)
    ensures a == b || |a| < |b|
  {
  }

  /** The forest law: two trees that hold a common path are nested. */
  lemma {:induction false} CommonDescendantOverlaps(a: string, b: string, c: string)
    requires Clean(a) && Clean(b) && Clean(c)
    requires Contains(a, c) && Contains(b, c)
    ensures Overlaps(a, b)
  {
  }

  // ---- the segment reading of a path ----

  function Join(segs: seq<string>): string
    requires |segs| > 0
  {
    if |segs| == 1 then segs[0] else segs[0] + "/" + Join(segs[1..])
  }

  function Segments(p: string): seq<string>
    requires Clean(p)
  {
    if p == ROOT then [] else Split(p[1..], '/')
  }

  lemma {:induction false} JoinSplit(s: string)
    ensures Join(Split(s, '/')) == s
  {
    if s != "" {
      var rest := Split(s[1..], '/');
      JoinSplit(s[1..]);
      if s[0] == '/' {
        assert ([""] + rest)[1..] == rest;
        assert Join([""] + rest) == "" + "/" + Join(rest);
        assert s == [s[0]] + s[1..];
      } else {
        var segs := [[s[0]] + rest[0]] + rest[1..];
        assert Split(s, '/') == segs;
        assert segs[1..] == rest[1..];
        if |rest| == 1 {
          assert Join(segs) == [s[0]] + rest[0];
        } else {
          assert Join(segs) == ([s[0]] + rest[0]) + "/" + Join(rest[1..]);
          assert Join(rest) == rest[0] + "/" + Join(rest[1..]);
        }
        assert Join(segs) == [s[0]] + Join(rest);
        assert s == [s[0]] + s[1..];
      }
    }
  }

  lemma {:induction false} SplitAtSlash(x: string, y: string)
    ensures Split(x + ("/" + y), '/') == Split(x, '/') + Split(y, '/')
  {
    var z := x + ("/" + y);
    if x == "" {
      assert z[1..] == y;
    } else {
      assert z[1..] == x[1..] + ("/" + y);
      SplitAtSlash(x[1..], y);
      PrependSegment(x[0], Split(x[1..], '/'), Split(y, '/'));
    }
  }

  /** One step of Split leaves every segment after the first alone. */
  lemma {:induction false} PrependSegment(c: char, s: seq<string>, t: seq<string>)
    requires |s| > 0
    ensures [[c] + (s + t)[0]] + (s + t)[1..] == ([[c] + s[0]] + s[1..]) + t
    ensures [""] + (s + t) == ([""] + s) + t
  {
  }

  lemma {:induction false} JoinAppend(s: seq<string>, t: seq<string>)
    requires |s| > 0 && |t| > 0
    ensures Join(s + t) == Join(s) + "/" + Join(t)
  {
    if |s| == 1 {
      assert (s + t)[1..] == t;
    } else {
      assert (s + t)[1..] == s[1..] + t;
      JoinAppend(s[1..], t);
    }
  }

  predicate NoEmptySegment(s: string) {
    "" !in Split(s, '/')
  }

  lemma {:induction false} SegmentsNonempty(s: string)
    ensures NoEmptySegment(s) <==>
            && s != "" && s[0] != '/' && s[|s| - 1] != '/'
            && (forall i :: 0 <= i < |s| - 1 && s[i] == '/' ==> s[i + 1] != '/')
    decreases |s|
  {
    if s != "" {
      var rest := Split(s[1..], '/');
      SegmentsNonempty(s[1..]);
      assert rest == [rest[0]] + rest[1..];
      if |s| > 1 && s[0] != '/' && s[1] == '/' {
        SegmentsNonempty(s[2..]);
        assert s[1..][1..] == s[2..];
      }
    }
  }

  /** A cleaned path is the root, or a slash before nonempty segments. */
  lemma {:induction false} CleanMeans(p: string)
    ensures Clean(p) <==> p == "/" || (p != "" && p[0] == '/' && NoEmptySegment(p[1..]))
  {
    if p != "" {
      SegmentsNonempty(p[1..]);
    }
  }

  /** The lexical test is segment-wise prefix, equality included: "/srv/x" does not
      contain "/srv/xy", and "/" contains everything. */
  lemma {:induction false} ContainsIsSegmentPrefix(a: string, b: string)
    requires Clean(a) && Clean(b)
    ensures Contains(a, b) <==> Segments(a) <= Segments(b)
  {
    if a == ROOT {
      assert a <= b;
    } else if a == b {
    } else {
      if Contains(a, b) {
        var rest := b[|a| + 1..];
        assert b[1..] == a[1..] + ("/" + rest) by {
          assert b[..|a| + 1] == a + "/";
          assert b == a + "/" + rest;
        }
        SplitAtSlash(a[1..], rest);
      }
      if Segments(a) <= Segments(b) {
        SegmentPrefixContains(a, b);
      }
    }
  }

  lemma {:induction false} SegmentPrefixContains(a: string, b: string)
    requires Clean(a) && Clean(b) && a != ROOT && Segments(a) <= Segments(b)
    ensures Contains(a, b)
  {
    var sa, sb := Segments(a), Segments(b);
    assert sb != [];
    assert Join(sa) == a[1..] by { JoinSplit(a[1..]); }
    assert Join(sb) == b[1..] by { JoinSplit(b[1..]); }
    var more := sb[|sa|..];
    assert sb == sa + more;
    if more == [] {
      assert sa == sb;
      TailsDetermine(a, b);
    } else {
      assert Join(sb) == a[1..] + "/" + Join(more) by { JoinAppend(sa, more); }
      PrefixOfTail(a, b, Join(more));
    }
  }

  lemma {:induction false} TailsDetermine(a: string, b: string)
    requires |a| > 0 && |b| > 0 && a[0] == b[0] && a[1..] == b[1..]
    ensures a == b
  {
  }

  lemma {:induction false} PrefixOfTail(a: string, b: string, rest: string)
    requires |a| > 0 && |b| > 0 && a[0] == b[0] && b[1..] == a[1..] + "/" + rest
    ensures a + "/" <= b
  {
  }

  /** Overlapping trees are those of which one's segments begin the other's. */
  lemma {:induction false} OverlapsIsNesting(a: string, b: string)
    requires Clean(a) && Clean(b)
    ensures Overlaps(a, b) <==> Segments(a) <= Segments(b) || Segments(b) <= Segments(a)
  {
    ContainsIsSegmentPrefix(a, b);
    ContainsIsSegmentPrefix(b, a);
  }
}
