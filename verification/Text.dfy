/**
Splitting text at a separator and joining it again.
*/
module Text {
  /** JavaScript's split: at every separator, leftmost first. */
  function SplitBy(s: string, sep: string): (parts: seq<string>)
    requires sep != ""
    ensures parts != []
  {
    if |s| < |sep| then [s]
    else if sep <= s then [""] + SplitBy(s[|sep|..], sep)
    else
      var parts := SplitBy(s[1..], sep);
      [[s[0]] + parts[0]] + parts[1..]
  }

  function Join(parts: seq<string>, sep: string): string
    requires parts != []
  {
    if |parts| == 1 then parts[0] else parts[0] + (sep + Join(parts[1..], sep))
  }

  /** Joining what was split gives the text back. */
  lemma {:induction false} JoinSplit(s: string, sep: string)
    requires sep != ""
    ensures Join(SplitBy(s, sep), sep) == s
    decreases |s|
  {
    if |s| >= |sep| {
      if sep <= s {
        JoinSplit(s[|sep|..], sep);
        var rest := SplitBy(s[|sep|..], sep);
        assert ([""] + rest)[1..] == rest;
        assert "" + (sep + s[|sep|..]) == s;
      } else {
        JoinSplit(s[1..], sep);
        var parts := SplitBy(s[1..], sep);
        JoinCons(s[0], parts, sep);
      }
    }
  }

  lemma JoinCons(c: char, parts: seq<string>, sep: string)
    requires parts != []
    ensures Join([[c] + parts[0]] + parts[1..], sep) == [c] + Join(parts, sep)
  {
    var more := [[c] + parts[0]] + parts[1..];
    assert more[1..] == parts[1..];
    if |parts| > 1 {
      assert ([c] + parts[0]) + (sep + Join(parts[1..], sep)) == [c] + (parts[0] + (sep + Join(parts[1..], sep)));
    }
  }

  ghost predicate Contains(s: string, sep: string) {
    exists i :: ContainsAt(s, sep, i)
  }

  predicate ContainsAt(s: string, sep: string, i: int) {
    0 <= i <= |s| - |sep| && s[i..i + |sep|] == sep
  }

  lemma {:induction false} FirstPartIsPrefix(s: string, sep: string)
    requires sep != ""
    ensures SplitBy(s, sep)[0] <= s
    decreases |s|
  {
    if |s| >= |sep| && !(sep <= s) {
      FirstPartIsPrefix(s[1..], sep);
    }
  }

  lemma ExtendedPart(c: char, part: string, s: string, sep: string)
    requires sep != "" && s != "" && s[0] == c && part <= s[1..] && !(sep <= s) && !Contains(part, sep)
    ensures !Contains([c] + part, sep)
  {
    var more := [c] + part;
    assert more <= s;
    forall i
      ensures !ContainsAt(more, sep, i)
    {
      if i == 0 {
        assert |sep| <= |more| ==> more[..|sep|] == s[..|sep|];
      } else if 0 < i <= |more| - |sep| {
        assert more[i..i + |sep|] == part[i - 1..i - 1 + |sep|];
        assert !ContainsAt(part, sep, i - 1);
      }
    }
  }

  /** No part contains the separator: the text is split wherever it can be. */
  lemma {:induction false} PartsAreFree(s: string, sep: string, k: nat)
    requires sep != "" && k < |SplitBy(s, sep)|
    ensures !Contains(SplitBy(s, sep)[k], sep)
    decreases |s|
  {
    if |s| >= |sep| {
      if sep <= s {
        if k > 0 {
          PartsAreFree(s[|sep|..], sep, k - 1);
        }
      } else {
        PartsAreFree(s[1..], sep, k);
        if k == 0 {
          FirstPartIsPrefix(s[1..], sep);
          ExtendedPart(s[0], SplitBy(s[1..], sep)[0], s, sep);
        }
      }
    }
  }

  // ---------- splitting undoes joining ----------

  lemma {:induction false} SplitFree(part: string, c: char)
    requires c !in part
    ensures SplitBy(part, [c]) == [part]
  {
    if part != "" {
      SplitFree(part[1..], c);
      assert [part[0]] + part[1..] == part;
    }
  }

  lemma {:induction false} SplitAtFirst(part: string, c: char, rest: string)
    requires c !in part
    ensures SplitBy(part + ([c] + rest), [c]) == [part] + SplitBy(rest, [c])
  {
    var s := part + ([c] + rest);
    if part == "" {
      assert s == [c] + rest && s[1..] == rest;
    } else {
      assert s[0] == part[0] && s[1..] == part[1..] + ([c] + rest);
      SplitAtFirst(part[1..], c, rest);
      assert [part[0]] + part[1..] == part;
    }
  }

  /** Splitting at a character gives back the parts that were joined with it, when none holds it. */
  lemma {:induction false} SplitJoin(parts: seq<string>, c: char)
    requires parts != [] && forall i :: 0 <= i < |parts| ==> c !in parts[i]
    ensures SplitBy(Join(parts, [c]), [c]) == parts
  {
    if |parts| == 1 {
      SplitFree(parts[0], c);
    } else {
      SplitJoin(parts[1..], c);
      SplitAtFirst(parts[0], c, Join(parts[1..], [c]));
    }
  }
}
