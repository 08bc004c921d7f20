/** The few functions of Go's `strings` package that the middlewares use, over code points. */
module Strings {

  /** True when `sub` occurs in `s` starting at index `i`. */
  predicate OccursAt(s: string, sub: string, i: int)
  {
    0 <= i <= |s| - |sub| && s[i..i + |sub|] == sub
  }

  /** strings.Contains: scan for the first position where `sub` starts. */
  function Contains(s: string, sub: string): bool
    decreases |s|
  {
    if |sub| > |s| then false
    else if s[..|sub|] == sub then true
    else Contains(s[1..], sub)
  }

  /** Contains holds exactly when `sub` occurs somewhere in `s`. */
  lemma {:induction false} ContainsIff(s: string, sub: string)
    ensures Contains(s, sub) <==> exists i :: OccursAt(s, sub, i)
    decreases |s|
  {
    if |sub| > |s| {
    } else if s[..|sub|] == sub {
      assert OccursAt(s, sub, 0);
    } else {
      ContainsIff(s[1..], sub);
      if Contains(s[1..], sub) {
        var i :| OccursAt(s[1..], sub, i);
        assert s[1..][i..i + |sub|] == s[i + 1..i + 1 + |sub|];
        assert OccursAt(s, sub, i + 1);
      }
      if i :| OccursAt(s, sub, i) {
        assert i != 0;
        assert s[1..][i - 1..i - 1 + |sub|] == s[i..i + |sub|];
        assert OccursAt(s[1..], sub, i - 1);
      }
    }
  }

  /** unicode.ToLower restricted to ASCII letters. */
  function LowerChar(c: char): (r: char)
    ensures !('A' <= r <= 'Z')
    ensures r == c || r as int == c as int + 32
    ensures !('A' <= c <= 'Z') ==> r == c
    ensures 'A' <= c <= 'Z' ==> r as int == c as int + 32
    ensures 'a' <= r <= 'z' ==> r == c || r as int - 32 == c as int
  {
    if 'A' <= c <= 'Z' then (c as int + 32) as char else c
  }

  /** strings.ToLower, letter by letter. */
  function ToLower(s: string): (r: string)
    ensures |r| == |s|
    ensures forall i :: 0 <= i < |s| ==> r[i] == LowerChar(s[i])
  {
    if |s| == 0 then "" else [LowerChar(s[0])] + ToLower(s[1..])
  }

  /** strings.Join: the parts with `sep` between each two neighbours. */
  function Join(parts: seq<string>, sep: string): string
  {
    if |parts| == 0 then ""
    else if |parts| == 1 then parts[0]
    else Join(parts[..|parts| - 1], sep) + sep + parts[|parts| - 1]
  }

  /** strings.Split with a one-character separator; there is always at least one part. */
  function Split(s: string, sep: char): (parts: seq<string>)
    ensures |parts| >= 1
  {
    if |s| == 0 then [""]
    else
      var init := Split(s[..|s| - 1], sep);
      var c := s[|s| - 1];
      if c == sep then init + [""]
      else init[..|init| - 1] + [init[|init| - 1] + [c]]
  }

  /** One step of Split: what one more character does to the parts. */
  lemma SplitSnoc(x: string, c: char, sep: char)
    ensures var p := Split(x, sep);
      Split(x + [c], sep) == if c == sep then p + [""] else p[..|p| - 1] + [p[|p| - 1] + [c]]
  {
    assert (x + [c])[..|x|] == x;
  }

  /** A separator at the end of the text opens an empty last part. */
  lemma SplitAtSeparator(x: string, sep: char, p: seq<string>)
    requires Split(x, sep) == p
    ensures Split(x + [sep], sep) == p + [""]
  {
    SplitSnoc(x, sep, sep);
  }

  /** One character that is not the separator extends the last part of a split. */
  lemma ExtendLastPart(x: string, c: char, sep: char, init: seq<string>, last: string)
    requires c != sep
    requires Split(x, sep) == init + [last]
    ensures Split(x + [c], sep) == init + [last + [c]]
  {
    SplitSnoc(x, c, sep);
    var p := init + [last];
    assert p[..|p| - 1] == init;
  }

  /** No part of a split holds the separator. */
  lemma {:induction false} SplitPartsFree(s: string, sep: char)
    ensures var parts := Split(s, sep);
      forall k :: 0 <= k < |parts| ==> sep !in parts[k]
    decreases |s|
  {
    if |s| > 0 {
      var x, c := s[..|s| - 1], s[|s| - 1];
      assert s == x + [c];
      SplitPartsFree(x, sep);
      var p := Split(x, sep);
      var init, last := p[..|p| - 1], p[|p| - 1];
      assert p == init + [last];
      if c == sep {
        SplitAtSeparator(x, sep, p);
        var q := p + [""];
        forall k | 0 <= k < |q| ensures sep !in q[k] {
          if k < |p| {
            assert q[k] == p[k];
          }
        }
      } else {
        ExtendLastPart(x, c, sep, init, last);
        var q := init + [last + [c]];
        assert sep !in last;
        forall k | 0 <= k < |q| ensures sep !in q[k] {
          if k < |init| {
            assert q[k] == p[k];
          } else {
            assert q[k] == last + [c];
          }
        }
      }
    }
  }

  /** The last part of a split is a suffix of the text. */
  lemma {:induction false} SplitLastSuffix(s: string, sep: char)
    ensures var parts := Split(s, sep);
      var last := parts[|parts| - 1];
      |last| <= |s| && s[|s| - |last|..] == last
    decreases |s|
  {
    if |s| > 0 {
      var x, c := s[..|s| - 1], s[|s| - 1];
      assert s == x + [c];
      SplitLastSuffix(x, sep);
      var p := Split(x, sep);
      var init, last := p[..|p| - 1], p[|p| - 1];
      assert p == init + [last];
      if c == sep {
        SplitAtSeparator(x, sep, p);
      } else {
        ExtendLastPart(x, c, sep, init, last);
        assert s[|s| - |last| - 1..] == x[|x| - |last|..] + [c];
      }
    }
  }

  /** Unless the last part of a split is the whole text, a separator comes right before it. */
  lemma {:induction false} SplitLastPreceded(s: string, sep: char)
    ensures var parts := Split(s, sep);
      var last := parts[|parts| - 1];
      |last| < |s| ==> s[|s| - |last| - 1] == sep
    decreases |s|
  {
    if |s| > 0 {
      var x, c := s[..|s| - 1], s[|s| - 1];
      assert s == x + [c];
      SplitLastPreceded(x, sep);
      var p := Split(x, sep);
      var init, last := p[..|p| - 1], p[|p| - 1];
      assert p == init + [last];
      if c == sep {
        SplitAtSeparator(x, sep, p);
      } else {
        ExtendLastPart(x, c, sep, init, last);
        if |last| + 1 < |s| {
          assert s[|s| - |last| - 2] == x[|x| - |last| - 1];
        }
      }
    }
  }

  /** One step of Join: one more part after at least one. */
  lemma JoinSnoc(parts: seq<string>, last: string, sep: string)
    requires |parts| >= 1
    ensures Join(parts + [last], sep) == Join(parts, sep) + sep + last
  {
    assert (parts + [last])[..|parts|] == parts;
  }

  /** Joining two parts puts one separator between them. */
  lemma JoinPair(a: string, b: string, sep: string)
    ensures Join([a, b], sep) == a + sep + b
  {
    assert [a, b][..1] == [a];
  }

  /** Joining the parts of a split with the separator gives back the text. */
  lemma {:induction false} JoinSplit(s: string, sep: char)
    ensures Join(Split(s, sep), [sep]) == s
    decreases |s|
  {
    if |s| > 0 {
      var x, c := s[..|s| - 1], s[|s| - 1];
      assert s == x + [c];
      var p := Split(x, sep);
      JoinSplit(x, sep);
      SplitSnoc(x, c, sep);
      if c == sep {
        JoinSnoc(p, "", [sep]);
      } else if |p| == 1 {
        assert Split(s, sep) == [p[0] + [c]];
      } else {
        var init := p[..|p| - 1];
        assert p == init + [p[|p| - 1]];
        JoinSnoc(init, p[|p| - 1], [sep]);
        JoinSnoc(init, p[|p| - 1] + [c], [sep]);
      }
    }
  }

  /** Appending text without a separator extends the last part of a split. */
  lemma {:induction false} SplitExtend(x: string, y: string, sep: char)
    requires sep !in y
    ensures var p := Split(x, sep);
      Split(x + y, sep) == p[..|p| - 1] + [p[|p| - 1] + y]
    decreases |y|
  {
    var p := Split(x, sep);
    var init, last := p[..|p| - 1], p[|p| - 1];
    if |y| == 0 {
      assert x + y == x;
      assert last + y == last;
      assert p == init + [last];
    } else {
      var y', c := y[..|y| - 1], y[|y| - 1];
      assert y == y' + [c];
      assert c in y;
      SplitExtend(x, y', sep);
      ExtendLastPart(x + y', c, sep, init, last + y');
      assert x + y == (x + y') + [c];
      assert (last + y') + [c] == last + y;
    }
  }

  /** Splitting a join of separator-free parts gives back the parts. */
  lemma {:induction false} SplitJoin(parts: seq<string>, sep: char)
    requires |parts| >= 1
    requires forall k :: 0 <= k < |parts| ==> sep !in parts[k]
    ensures Split(Join(parts, [sep]), sep) == parts
    decreases |parts|
  {
    var last := parts[|parts| - 1];
    if |parts| == 1 {
      SplitExtend("", last, sep);
      assert "" + last == last;
    } else {
      var init := parts[..|parts| - 1];
      assert parts == init + [last];
      SplitJoin(init, sep);
      var j := Join(init, [sep]);
      JoinSnoc(init, last, [sep]);
      SplitSnoc(j, sep, sep);
      assert Split(j + [sep], sep) == init + [""];
      SplitExtend(j + [sep], last, sep);
      assert (init + [""])[..|init|] == init;
      assert (init + [""])[|init|] + last == last;
    }
  }
}
