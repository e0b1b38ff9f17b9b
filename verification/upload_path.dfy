/** The stored cover path of an uploaded image: the upload's temporary path,
    a dot, and the last dot-separated piece of the client's file name. */
module UploadPath {

  /** JavaScript's `s.split(sep)` for a one-character separator: the pieces
      between separators, left to right; never empty, `""` gives `[""]`. */
  function Split(s: string, sep: char): (parts: seq<string>)
    ensures |parts| >= 1
    decreases |s|
  {
    if |s| == 0 then [""]
    else
      var init := Split(s[..|s| - 1], sep);
      var c := s[|s| - 1];
      if c == sep then init + [""]
      else init[..|init| - 1] + [init[|init| - 1] + [c]]
  }

  /** JavaScript's `parts.join(sep)`. */
  function Join(parts: seq<string>, sep: char): string
    requires |parts| >= 1
    decreases |parts|
  {
    if |parts| == 1 then parts[0]
    else Join(parts[..|parts| - 1], sep) + [sep] + parts[|parts| - 1]
  }

  /** JavaScript's `s.lastIndexOf(c)`: the last position holding `c`, or -1. */
  function LastIndexOf(s: string, c: char): (r: int)
    ensures -1 <= r < |s|
    ensures r >= 0 ==> s[r] == c
    ensures forall j :: r < j < |s| ==> s[j] != c
    ensures r == -1 <==> c !in s
    decreases |s|
  {
    if |s| == 0 then -1
    else if s[|s| - 1] == c then |s| - 1
    else LastIndexOf(s[..|s| - 1], c)
  }

  /** `parts[parts.length - 1]` where `parts = originalname.split(".")`. */
  function Extension(originalName: string): string
  {
    var parts := Split(originalName, '.');
    parts[|parts| - 1]
  }

  /** The path the upload is renamed to and stored as the post's cover. */
  function CoverLocator(tempPath: string, originalName: string): (r: string)
    ensures r == tempPath + "." + originalName[LastIndexOf(originalName, '.') + 1..]
    ensures '.' !in originalName ==> r == tempPath + "." + originalName
    ensures |r| > |tempPath| && r[..|tempPath|] == tempPath && r[|tempPath|] == '.'
  {
    ExtensionIsTextAfterLastDot(originalName);
    tempPath + "." + Extension(originalName)
  }

  /** No piece of a split holds the separator. */
  lemma {:induction false} SplitPiecesAreFree(s: string, sep: char)
    ensures forall i :: 0 <= i < |Split(s, sep)| ==> sep !in Split(s, sep)[i]
    decreases |s|
  {
    if |s| > 0 {
      var pre := s[..|s| - 1];
      SplitPiecesAreFree(pre, sep);
      var init := Split(pre, sep);
      var c := s[|s| - 1];
      var parts := Split(s, sep);
      if c == sep {
        assert parts == init + [""];
      } else {
        assert parts == init[..|init| - 1] + [init[|init| - 1] + [c]];
        assert forall i :: 0 <= i < |parts| - 1 ==> parts[i] == init[i];
      }
    }
  }

  /** Splitting and joining again gives back the original text. */
  lemma {:induction false} JoinSplit(s: string, sep: char)
    ensures Join(Split(s, sep), sep) == s
    decreases |s|
  {
    if |s| == 0 {
      assert Split(s, sep) == [""];
    } else {
      var pre := s[..|s| - 1];
      var c := s[|s| - 1];
      var init := Split(pre, sep);
      JoinSplit(pre, sep);
      assert s == pre + [c];
      var parts := Split(s, sep);
      if c == sep {
        assert parts == init + [""];
        assert parts[..|parts| - 1] == init;
      } else {
        var k := |init|;
        assert parts == init[..k - 1] + [init[k - 1] + [c]];
        if k == 1 {
          assert Join(init, sep) == init[0];
        } else {
          assert parts[..|parts| - 1] == init[..k - 1];
          assert Join(init, sep) == Join(init[..k - 1], sep) + [sep] + init[k - 1];
        }
      }
    }
  }

  /** Splitting one character more: a separator opens a new empty piece,
      any other character extends the last piece. */
  lemma SplitSnoc(s: string, c: char, sep: char)
    ensures var p := Split(s, sep);
            Split(s + [c], sep) == if c == sep then p + [""] else p[..|p| - 1] + [p[|p| - 1] + [c]]
  {
    assert (s + [c])[..|s|] == s;
  }

  /** A character other than the separator extends the last piece. */
  lemma SplitExtendLast(y: string, c: char, sep: char, front: seq<string>, piece: string)
    requires c != sep
    requires Split(y, sep) == front + [piece]
    ensures Split(y + [c], sep) == front + [piece + [c]]
  {
    SplitSnoc(y, c, sep);
    var q := front + [piece];
    assert q[..|q| - 1] == front;
  }

  /** Appending text free of the separator extends the last piece. */
  lemma {:induction false} SplitAppendPiece(x: string, b: string, sep: char)
    requires sep !in b
    ensures var p := Split(x, sep);
            Split(x + b, sep) == p[..|p| - 1] + [p[|p| - 1] + b]
    decreases |b|
  {
    var p := Split(x, sep);
    var front := p[..|p| - 1];
    var last := p[|p| - 1];
    if |b| == 0 {
      assert x + b == x;
      assert last + b == last;
      assert p == front + [last];
    } else {
      var b' := b[..|b| - 1];
      var c := b[|b| - 1];
      assert c in b;
      assert b == b' + [c];
      SplitAppendPiece(x, b', sep);
      SplitExtendLast(x + b', c, sep, front, last + b');
      assert (x + b') + [c] == x + b;
      assert (last + b') + [c] == last + b;
    }
  }

  /** One more separator-free piece joined on is one more piece split off. */
  lemma SplitJoinStep(init: seq<string>, last: string, sep: char)
    requires |init| >= 1
    requires Split(Join(init, sep), sep) == init
    requires sep !in last
    ensures Split(Join(init + [last], sep), sep) == init + [last]
  {
    var front := Join(init, sep) + [sep];
    assert Split(front, sep) == init + [""] by {
      SplitSnoc(Join(init, sep), sep, sep);
    }
    assert Split(front + last, sep) == init + [last] by {
      SplitAppendPiece(front, last, sep);
      var p := init + [""];
      assert p[..|p| - 1] == init;
      assert p[|p| - 1] + last == last;
    }
    var parts := init + [last];
    assert parts[..|parts| - 1] == init;
  }

  /** A name without the separator splits into itself alone. */
  lemma SplitPiece(b: string, sep: char)
    requires sep !in b
    ensures Split(b, sep) == [b]
  {
    SplitAppendPiece("", b, sep);
    assert Split("", sep) == [""];
    assert "" + b == b;
  }

  /** Splitting a join of separator-free pieces gives back the pieces. */
  lemma {:induction false} SplitJoin(parts: seq<string>, sep: char)
    requires |parts| >= 1
    requires forall i :: 0 <= i < |parts| ==> sep !in parts[i]
    ensures Split(Join(parts, sep), sep) == parts
    decreases |parts|
  {
    var last := parts[|parts| - 1];
    if |parts| == 1 {
      SplitPiece(last, sep);
      assert Join(parts, sep) == last;
    } else {
      var init := parts[..|parts| - 1];
      assert parts == init + [last];
      assert forall i :: 0 <= i < |init| ==> sep !in init[i] by {
        forall i | 0 <= i < |init| ensures sep !in init[i] {
          assert init[i] == parts[i];
        }
      }
      SplitJoin(init, sep);
      SplitJoinStep(init, last, sep);
    }
  }

  /** The extension is exactly the text after the last dot of the name. */
  lemma {:induction false} ExtensionIsTextAfterLastDot(name: string)
    ensures Extension(name) == name[LastIndexOf(name, '.') + 1..]
    decreases |name|
  {
    if |name| == 0 {
      assert Split(name, '.') == [""];
      assert LastIndexOf(name, '.') == -1;
    } else {
      var pre := name[..|name| - 1];
      var c := name[|name| - 1];
      ExtensionIsTextAfterLastDot(pre);
      assert name == pre + [c];
      var init := Split(pre, '.');
      if c == '.' {
        assert Split(name, '.') == init + [""];
        assert LastIndexOf(name, '.') == |name| - 1;
      } else {
        var l := LastIndexOf(pre, '.');
        assert LastIndexOf(name, '.') == l;
        assert Split(name, '.') == init[..|init| - 1] + [init[|init| - 1] + [c]];
        assert Extension(name) == Extension(pre) + [c];
        assert name[l + 1..] == pre[l + 1..] + [c];
      }
    }
  }

  /** A name without a dot is its own extension; a name ending in a dot has
      the empty extension. */
  lemma ExtensionEdgeCases(name: string)
    ensures '.' !in name ==> Extension(name) == name
    ensures |name| > 0 && name[|name| - 1] == '.' ==> Extension(name) == ""
  {
    ExtensionIsTextAfterLastDot(name);
  }
}
