/** Slash-separated text: splitting at '/', joining with '/', and how the two undo each other. */
module Text {

  /** True iff `s` holds no slash. */
  predicate SlashFree(s: string) {
    '/' !in s
  }

  /** The elements between the slashes of `s`; the text without a slash is one element. */
  function Split(s: string): (r: seq<string>)
    ensures |r| >= 1
    ensures forall i :: 0 <= i < |r| ==> SlashFree(r[i])
  {
    if s == "" then [""]
    else
      var rest := Split(s[1..]);
      if s[0] == '/' then [""] + rest else [[s[0]] + rest[0]] + rest[1..]
  }

  /** The elements with one slash between neighbours. */
  function Join(segs: seq<string>): string {
    if |segs| == 0 then ""
    else if |segs| == 1 then segs[0]
    else segs[0] + "/" + Join(segs[1..])
  }

  /** Joining what was split gives the text back. */
  lemma {:induction false} JoinSplit(s: string)
    ensures Join(Split(s)) == s
  {
    if s != "" {
      JoinSplit(s[1..]);
      var rest := Split(s[1..]);
      if s[0] == '/' {
        assert ([""] + rest)[1..] == rest;
      } else {
        var r := [[s[0]] + rest[0]] + rest[1..];
        assert r[1..] == rest[1..];
        assert s == [s[0]] + s[1..];
      }
    }
  }

  lemma {:induction false} SplitAfterSlash(a: string, s: string)
    requires SlashFree(a)
    ensures Split(a + "/" + s) == [a] + Split(s)
  {
    var t := a + "/" + s;
    if a == "" {
      assert t[1..] == s;
    } else {
      assert t[1..] == a[1..] + "/" + s;
      SplitAfterSlash(a[1..], s);
      assert a == [a[0]] + a[1..];
    }
  }

  /** Splitting around a slash splits both parts. */
  lemma {:induction false} SplitAround(a: string, b: string)
    ensures Split(a + "/" + b) == Split(a) + Split(b)
  {
    var t := a + "/" + b;
    if a == "" {
      assert t[1..] == b;
    } else {
      assert t[1..] == a[1..] + "/" + b;
      SplitAround(a[1..], b);
    }
  }

  lemma {:induction false} SplitSlashFree(a: string)
    requires SlashFree(a)
    ensures Split(a) == [a]
  {
    if a != "" {
      SplitSlashFree(a[1..]);
      assert a == [a[0]] + a[1..];
    }
  }

  /** Splitting what was joined gives the elements back. */
  lemma {:induction false} SplitJoin(segs: seq<string>)
    requires |segs| >= 1
    requires forall i :: 0 <= i < |segs| ==> SlashFree(segs[i])
    ensures Split(Join(segs)) == segs
  {
    if |segs| == 1 {
      SplitSlashFree(segs[0]);
    } else {
      SplitJoin(segs[1..]);
      SplitAfterSlash(segs[0], Join(segs[1..]));
      assert [segs[0]] + segs[1..] == segs;
    }
  }

  /** An empty last element is a trailing slash. */
  lemma {:induction false} JoinTrailing(segs: seq<string>)
    requires |segs| >= 1
    ensures Join(segs + [""]) == Join(segs) + "/"
  {
    if |segs| > 1 {
      JoinTrailing(segs[1..]);
      assert (segs + [""])[1..] == segs[1..] + [""];
    } else {
      assert (segs + [""])[1..] == [""];
    }
  }

  /** The joined text is non-empty and ends as its last element does. */
  lemma {:induction false} JoinLast(segs: seq<string>)
    requires |segs| >= 1 && segs[|segs| - 1] != ""
    ensures var last := segs[|segs| - 1];
            var j := Join(segs); j != "" && j[|j| - 1] == last[|last| - 1]
  {
    if |segs| > 1 {
      JoinLast(segs[1..]);
    }
  }
}
