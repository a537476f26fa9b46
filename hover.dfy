/**
 * Wrapping the details text of an action for its hover label: the text is cut
 * after the first space found at or beyond column 80, repeatedly, and the
 * pieces are joined with HTML line breaks.
 */
module HoverText {
  import opened Wrappers

  /** The column from which a line break may be placed. */
  const MinLine: nat := 80

  /** The separator placed between the pieces. */
  const Break: string := "<br>"

  /** `s.find(" ", start)`: the first space at or after `start`, or -1 (also when start is past the end). */
  function FindSpace(s: string, start: nat): (r: int)
    ensures r == -1 || (start <= r < |s| && s[r] == ' ')
    ensures r == -1 <==> forall k :: start <= k < |s| ==> s[k] != ' '
    ensures r != -1 ==> forall k :: start <= k < r ==> s[k] != ' '
    decreases |s| - start
  {
    if start >= |s| then -1
    else if s[start] == ' ' then start
    else FindSpace(s, start + 1)
  }

  /** The pieces the wrapping loop appends, in order. */
  function Fragments(t: string): (r: seq<string>)
    ensures r == [] <==> t == []
    ensures forall i :: 0 <= i < |r| ==> r[i] != []
    decreases |t|
  {
    if |t| == 0 then []
    else
      var sp := FindSpace(t, MinLine);
      if sp == -1 then [t] else [t[..sp + 1]] + Fragments(t[sp + 1..])
  }

  /** `"".join(parts)`. */
  function Concat(parts: seq<string>): string {
    if parts == [] then "" else parts[0] + Concat(parts[1..])
  }

  /** `"<br>".join(parts)`. */
  function JoinBr(parts: seq<string>): (r: string)
    ensures parts != [] ==> parts[0] <= r
    ensures |parts| > 1 ==> |parts[0]| + |Break| <= |r| && r[|parts[0]|..|parts[0]| + |Break|] == Break
  {
    if parts == [] then ""
    else if |parts| == 1 then parts[0]
    else parts[0] + Break + JoinBr(parts[1..])
  }

  /** A piece cut at a space: at least 81 characters, ending with the first space at or after column 80. */
  predicate CutAtSpace(f: string) {
    && |f| >= MinLine + 1
    && f[|f| - 1] == ' '
    && forall k :: MinLine <= k < |f| - 1 ==> f[k] != ' '
  }

  /** A final piece that was not cut: non-empty, with no space at or after column 80. */
  predicate Uncut(f: string) {
    && f != []
    && forall k :: MinLine <= k < |f| ==> f[k] != ' '
  }

  /** `wrap_hover_text`: a value that is not a string (a missing details cell) comes back as it
      is; a string comes back as its pieces joined with "<br>". */
  method WrapHoverText(text: Option<string>) returns (r: Option<string>)
    ensures text.None? ==> r == text
    ensures text.Some? ==> r == Some(JoinBr(Fragments(text.value)))
  {
    if text.None? {
      return text;
    }
    var t := text.value;
    var fracs: seq<string> := [];
    while |t| > 0
      invariant fracs + Fragments(t) == Fragments(text.value)
      decreases |t|
    {
      var sp := FindSpace(t, MinLine);
      if sp == -1 {
        assert Fragments(t) == [t];
        fracs := fracs + [t];
        break;
      }
      fracs := fracs + [t[..sp + 1]];
      t := t[sp + 1..];
    }
    assert fracs == Fragments(text.value);
    r := Some(JoinBr(fracs));
  }

  /** Putting the pieces back together without separators gives the text back. */
  lemma {:induction false} FragmentsRejoin(t: string)
    ensures Concat(Fragments(t)) == t
    decreases |t|
  {
    if |t| > 0 {
      var sp := FindSpace(t, MinLine);
      if sp != -1 {
        var rest := t[sp + 1..];
        FragmentsRejoin(rest);
        assert Fragments(t) == [t[..sp + 1]] + Fragments(rest);
        assert Concat(Fragments(t)) == t[..sp + 1] + Concat(Fragments(rest));
        assert t == t[..sp + 1] + rest;
      }
    }
  }

  /** Every piece but the last is cut at a space; the last is either cut at a space too (the
      text ended with that space) or carries no space from column 80 on. */
  lemma {:induction false} FragmentsShape(t: string)
    ensures var fs := Fragments(t);
      && (forall i :: 0 <= i < |fs| - 1 ==> CutAtSpace(fs[i]))
      && (fs != [] ==> CutAtSpace(fs[|fs| - 1]) || Uncut(fs[|fs| - 1]))
    decreases |t|
  {
    if |t| > 0 {
      var sp := FindSpace(t, MinLine);
      if sp != -1 {
        var head, rest := t[..sp + 1], t[sp + 1..];
        FragmentsShape(rest);
        assert CutAtSpace(head) by {
          forall k | MinLine <= k < |head| - 1 ensures head[k] != ' ' {
            assert head[k] == t[k];
          }
        }
        var fs := Fragments(t);
        assert fs == [head] + Fragments(rest);
        forall i | 0 <= i < |fs| - 1 ensures CutAtSpace(fs[i]) {
          if i > 0 {
            assert fs[i] == Fragments(rest)[i - 1];
          }
        }
      }
    }
  }

  /** A text with no space from column 80 on (in particular any text of at most 81
      characters) is shown as it is. */
  lemma ShortTextUnchanged(t: string)
    requires forall k :: MinLine <= k < |t| ==> t[k] != ' '
    ensures JoinBr(Fragments(t)) == t
  {
  }

  /** The separators sit exactly between the pieces: the output is as long as the text plus
      four characters per break. */
  lemma {:induction false} BreaksBetweenPieces(t: string)
    ensures var fs := Fragments(t);
      |JoinBr(fs)| == |t| + (if fs == [] then 0 else |Break| * (|fs| - 1))
  {
    FragmentsRejoin(t);
    JoinBrLength(Fragments(t));
  }

  /** `"<br>".join` adds four characters per gap to the concatenated length. */
  lemma {:induction false} JoinBrLength(parts: seq<string>)
    ensures |JoinBr(parts)| == |Concat(parts)| + (if parts == [] then 0 else |Break| * (|parts| - 1))
  {
    if |parts| > 1 {
      JoinBrLength(parts[1..]);
    } else if |parts| == 1 {
      assert Concat(parts) == parts[0] + Concat(parts[1..]);
    }
  }
}
