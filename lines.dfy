/** Text splitting used on the range response and on the batch file:
    Python's `str.splitlines()` and `line.split(":")[0]`. */
module Lines {

  /** The boundaries `str.splitlines()` splits on: line feed, carriage
      return (a CR LF pair counts as one boundary), vertical tab, form feed,
      the file/group/record separators, next line, line and paragraph
      separator. */
  predicate IsLineBoundary(c: char)
  {
    c == '\n' || c == '\r' || c == '\U{0B}' || c == '\U{0C}' || c == '\U{1C}' || c == '\U{1D}'
    || c == '\U{1E}' || c == '\U{85}' || c == '\U{2028}' || c == '\U{2029}'
  }

  predicate NoBoundary(s: string) { forall i :: 0 <= i < |s| ==> !IsLineBoundary(s[i]) }

  /** Index of the first boundary character, or |s| if there is none. */
  function FirstBoundary(s: string): (i: nat)
    ensures i <= |s| && NoBoundary(s[..i])
    ensures i < |s| ==> IsLineBoundary(s[i])
  {
    if s == [] then 0
    else if IsLineBoundary(s[0]) then 0
    else
      var j := FirstBoundary(s[1..]);
      assert s[1..][..j] == s[1..j + 1];
      1 + j
  }

  /** `s.splitlines()`: the text between boundaries; a final boundary does
      not open an empty last line, and empty text has no lines. */
  function SplitLines(s: string): (lines: seq<string>)
    ensures forall k :: 0 <= k < |lines| ==> NoBoundary(lines[k])
    decreases |s|
  {
    if s == [] then []
    else
      var i := FirstBoundary(s);
      if i == |s| then [s]
      else
        var skip := if s[i] == '\r' && i + 1 < |s| && s[i + 1] == '\n' then 2 else 1;
        [s[..i]] + SplitLines(s[i + skip..])
  }

  /** A line break as `str.splitlines()` reads it: one boundary character,
      or the pair CR LF. */
  predicate IsBreak(b: string)
  {
    (|b| == 1 && IsLineBoundary(b[0])) || b == "\r\n"
  }

  /** Each line followed by its own line break. */
  function JoinWith(lines: seq<string>, breaks: seq<string>): string
    requires |breaks| == |lines|
  {
    if lines == [] then "" else lines[0] + breaks[0] + JoinWith(lines[1..], breaks[1..])
  }

  /** A lone CR that ends a line is never followed by an empty line ending in
      LF: the text would then hold CR LF, one break, not two. */
  predicate Unambiguous(lines: seq<string>, breaks: seq<string>)
    requires |breaks| == |lines|
  {
    forall k :: 0 <= k < |lines| - 1 && breaks[k] == "\r" && lines[k + 1] == "" ==> breaks[k + 1] != "\n"
  }

  /** Splitting text made of boundary-free lines, each ended by any break,
      and an optional unterminated last line gives back exactly those
      lines; an empty last piece opens no line. */
  lemma {:induction false} SplitJoinRoundTrip(lines: seq<string>, breaks: seq<string>, tail: string)
    requires |breaks| == |lines| && Unambiguous(lines, breaks)
    requires forall k :: 0 <= k < |lines| ==> NoBoundary(lines[k]) && IsBreak(breaks[k])
    requires NoBoundary(tail)
    ensures SplitLines(JoinWith(lines, breaks) + tail) == lines + (if tail == "" then [] else [tail])
  {
    if lines == [] {
      assert JoinWith(lines, breaks) + tail == tail;
    } else {
      var l, b := lines[0], breaks[0];
      var rest := JoinWith(lines[1..], breaks[1..]) + tail;
      assert JoinWith(lines, breaks) + tail == l + b + rest;
      assert SplitLines(l + b + rest) == [l] + SplitLines(rest) by {
        if b == "\r" {
          NoLeadingLineFeed(lines, breaks, tail);
        }
        SplitStep(l, b, rest);
      }
      assert SplitLines(rest) == lines[1..] + (if tail == "" then [] else [tail]) by {
        assert Unambiguous(lines[1..], breaks[1..]) by {
          forall k | 0 <= k < |lines| - 2 && breaks[1..][k] == "\r" && lines[1..][k + 1] == ""
            ensures breaks[1..][k + 1] != "\n"
          {
            assert breaks[k + 1] == "\r" && lines[k + 2] == "";
          }
        }
        forall k | 0 <= k < |lines| - 1 ensures NoBoundary(lines[1..][k]) && IsBreak(breaks[1..][k]) {
          assert lines[1..][k] == lines[k + 1] && breaks[1..][k] == breaks[k + 1];
        }
        SplitJoinRoundTrip(lines[1..], breaks[1..], tail);
      }
      assert lines == [l] + lines[1..];
    }
  }

  /** One line and its break come off the front of the text. */
  lemma SplitStep(l: string, b: string, rest: string)
    requires NoBoundary(l) && IsBreak(b)
    requires b == "\r" ==> rest == [] || rest[0] != '\n'
    ensures SplitLines(l + b + rest) == [l] + SplitLines(rest)
  {
    var s := l + b + rest;
    FirstBoundaryOfLine(l, b, rest);
    if |b| == 1 && |rest| > 0 {
      assert s[|l| + 1] == rest[0];
    }
    assert s[..|l|] == l;
    assert s[|l| + |b|..] == rest;
  }

  /** Non-empty boundary-free lines, each ended by a break except perhaps
      the last, split back into exactly those lines. */
  lemma SplitJoinRecords(lines: seq<string>, breaks: seq<string>, lastOpen: bool)
    requires |breaks| == |lines|
    requires forall k :: 0 <= k < |lines| ==> lines[k] != "" && NoBoundary(lines[k]) && IsBreak(breaks[k])
    ensures lastOpen && lines != [] ==>
      SplitLines(JoinWith(lines[..|lines| - 1], breaks[..|lines| - 1]) + lines[|lines| - 1]) == lines
    ensures !lastOpen || lines == [] ==> SplitLines(JoinWith(lines, breaks)) == lines
  {
    if lastOpen && lines != [] {
      var n := |lines| - 1;
      var front, fronts := lines[..n], breaks[..n];
      assert SplitLines(JoinWith(front, fronts) + lines[n]) == front + [lines[n]] by {
        forall k | 0 <= k < n ensures front[k] != "" && NoBoundary(front[k]) && IsBreak(fronts[k]) {
          assert front[k] == lines[k] && fronts[k] == breaks[k];
        }
        assert Unambiguous(front, fronts);
        SplitJoinRoundTrip(front, fronts, lines[n]);
      }
      assert front + [lines[n]] == lines;
    } else {
      assert SplitLines(JoinWith(lines, breaks) + "") == lines + [] by {
        assert Unambiguous(lines, breaks);
        SplitJoinRoundTrip(lines, breaks, "");
      }
      assert JoinWith(lines, breaks) + "" == JoinWith(lines, breaks);
      assert lines + [] == lines;
    }
  }

  /** After a lone CR, the text does not go on with LF. */
  lemma NoLeadingLineFeed(lines: seq<string>, breaks: seq<string>, tail: string)
    requires |breaks| == |lines| > 0 && Unambiguous(lines, breaks) && breaks[0] == "\r"
    requires forall k :: 0 <= k < |lines| ==> NoBoundary(lines[k]) && IsBreak(breaks[k])
    requires NoBoundary(tail)
    ensures var rest := JoinWith(lines[1..], breaks[1..]) + tail; rest == [] || rest[0] != '\n'
  {
    var rest := JoinWith(lines[1..], breaks[1..]) + tail;
    if |lines| > 1 {
      assert rest == lines[1] + breaks[1] + (JoinWith(lines[2..], breaks[2..]) + tail);
      if lines[1] == "" {
        assert rest[0] == breaks[1][0];
      } else {
        assert rest[0] == lines[1][0];
      }
    } else {
      assert rest == tail;
    }
  }

  /** The first boundary of a line followed by its break is where the break
      starts. */
  lemma {:induction false} FirstBoundaryOfLine(l: string, b: string, rest: string)
    requires NoBoundary(l) && IsBreak(b)
    ensures FirstBoundary(l + b + rest) == |l|
  {
    var s := l + b + rest;
    assert s[|l|] == b[0];
  }

  /** `line.split(":")[0]`: the longest prefix of the line without a colon. */
  function FirstField(line: string): (f: string)
    ensures ':' !in f && f <= line
    ensures |f| < |line| ==> line[|f|] == ':'
  {
    if line == [] || line[0] == ':' then ""
    else [line[0]] + FirstField(line[1..])
  }

  /** A `suffix:count` record yields its suffix field. */
  lemma {:induction false} FirstFieldOfRecord(field: string, rest: string)
    requires ':' !in field
    ensures FirstField(field + ":" + rest) == field
  {
    if field != [] {
      assert (field + ":" + rest)[1..] == field[1..] + ":" + rest;
      FirstFieldOfRecord(field[1..], rest);
    }
  }
}
