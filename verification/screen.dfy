/** The two pure helpers of the terminal screen: cutting a turn of text into
    display lines of at most 46 characters that all carry the turn's prefix
    (`splitWithPrefix`), and choosing a line's colour from its first character
    (`getLineColor`). */
module Screen {

  /** Characters per display line, not counting a turn prefix. */
  const Width: nat := 46

  /** The characters that the regular-expression `.` refuses to match. */
  predicate IsTerminator(c: char) {
    c == '\n' || c == '\r' || c == '\U{2028}' || c == '\U{2029}'
  }

  predicate NoTerminators(s: string) {
    forall i :: 0 <= i < |s| ==> !IsTerminator(s[i])
  }

  /** `s` without its line terminators. */
  function Strip(s: string): string {
    if s == [] then []
    else if IsTerminator(s[0]) then Strip(s[1..])
    else [s[0]] + Strip(s[1..])
  }

  function Concat(ss: seq<string>): string {
    if ss == [] then [] else ss[0] + Concat(ss[1..])
  }

  /** The length of the greedy match of `.{1,k}` at the start of `s`: the
      longest run of non-terminators there, cut at `k`. */
  function Run(s: string, k: nat): (n: nat)
    ensures n <= k && n <= |s|
    ensures NoTerminators(s[..n])
    ensures n < k && n < |s| ==> IsTerminator(s[n])
  {
    if s == [] || k == 0 || IsTerminator(s[0]) then 0
    else
      var n := 1 + Run(s[1..], k - 1);
      assert s[..n] == [s[0]] + s[1..][..n - 1];
      n
  }

  /** All matches of the global regular expression `.{1,46}` in `s`, in
      order: a position holding a terminator matches nothing and is passed
      over; elsewhere the match takes as many characters as it can, up to 46. */
  function Matches(s: string): seq<string>
    decreases |s|
  {
    if s == [] then []
    else if IsTerminator(s[0]) then Matches(s[1..])
    else
      var n := Run(s, Width);
      [s[..n]] + Matches(s[n..])
  }

  /** `str.match(/.{1,46}/g) || [""]`: a text with no match gives one empty block. */
  function Chunks(s: string): seq<string> {
    if Matches(s) == [] then [""] else Matches(s)
  }

  /** The text starts with "< " or with "> ". */
  predicate HasTurnPrefix(s: string) {
    |s| >= 2 && (s[0] == '<' || s[0] == '>') && s[1] == ' '
  }

  /** The turn prefix "< " (the machine's reply) or "> " (the user), or nothing. */
  function TurnPrefix(s: string): string {
    if HasTurnPrefix(s) then s[..2] else ""
  }

  function Body(s: string): string {
    if HasTurnPrefix(s) then s[2..] else s
  }

  /** Every block with `p` written in front of it. */
  function PrefixEach(p: string, cs: seq<string>): seq<string> {
    if cs == [] then [] else [p + cs[0]] + PrefixEach(p, cs[1..])
  }

  /** `splitWithPrefix`: peel a leading turn prefix off, cut the rest into
      blocks of at most 46 characters and copy the prefix back onto each. */
  function SplitWithPrefix(s: string): seq<string> {
    if HasTurnPrefix(s) then PrefixEach(TurnPrefix(s), Chunks(Body(s))) else Chunks(Body(s))
  }

  // ---------------------------------------------------------------------
  // Properties of the matching

  /** Every match is 1 to 46 characters long and holds no terminator. */
  lemma {:induction false} MatchesBlocks(s: string)
    ensures forall k :: 0 <= k < |Matches(s)| ==>
              1 <= |Matches(s)[k]| <= Width && NoTerminators(Matches(s)[k])
    decreases |s|
  {
    if s != [] {
      if IsTerminator(s[0]) {
        MatchesBlocks(s[1..]);
      } else {
        MatchesBlocks(s[Run(s, Width)..]);
      }
    }
  }

  lemma {:induction false} PrefixEachAt(p: string, cs: seq<string>)
    ensures |PrefixEach(p, cs)| == |cs|
    ensures forall k :: 0 <= k < |cs| ==> PrefixEach(p, cs)[k] == p + cs[k]
  {
    if cs != [] {
      PrefixEachAt(p, cs[1..]);
    }
  }

  lemma {:induction false} StripAppend(s: string, t: string)
    ensures Strip(s + t) == Strip(s) + Strip(t)
  {
    if s == [] {
      assert s + t == t;
    } else {
      StripAppend(s[1..], t);
      assert (s + t)[1..] == s[1..] + t;
      if IsTerminator(s[0]) {
        assert Strip(s + t) == Strip(s[1..] + t);
      } else {
        calc {
          Strip(s + t);
          [s[0]] + Strip(s[1..] + t);
          [s[0]] + (Strip(s[1..]) + Strip(t));
          ([s[0]] + Strip(s[1..])) + Strip(t);
        }
      }
    }
  }

  /** Stripping a text that has no terminators leaves it as it is. */
  lemma {:induction false} StripClean(s: string)
    requires NoTerminators(s)
    ensures Strip(s) == s
  {
    if s != [] {
      StripClean(s[1..]);
      assert s == [s[0]] + s[1..];
    }
  }

  /** The matches are exactly the text with its terminators removed: nothing
      else is lost, nothing is duplicated, the order is kept. */
  lemma {:induction false} MatchesConcat(s: string)
    ensures Concat(Matches(s)) == Strip(s)
    decreases |s|
  {
    if s != [] {
      if IsTerminator(s[0]) {
        MatchesConcat(s[1..]);
      } else {
        var n := Run(s, Width);
        MatchesConcat(s[n..]);
        assert s == s[..n] + s[n..];
        StripAppend(s[..n], s[n..]);
        StripClean(s[..n]);
        var rest := Matches(s[n..]);
        assert Matches(s) == [s[..n]] + rest;
        assert ([s[..n]] + rest)[1..] == rest;
        assert Concat([s[..n]] + rest) == s[..n] + Concat(rest);
      }
    }
  }

  /** On a text without terminators every block but the last is full. */
  lemma {:induction false} MatchesFull(s: string)
    requires NoTerminators(s)
    ensures forall k :: 0 <= k < |Matches(s)| - 1 ==> |Matches(s)[k]| == Width
    decreases |s|
  {
    if s != [] {
      var n := Run(s, Width);
      assert NoTerminators(s[n..]);
      MatchesFull(s[n..]);
      if Matches(s[n..]) != [] {
        assert n == Width;
      }
    }
  }

  /** On a text without terminators there is one block per started 46
      characters. */
  lemma {:induction false} MatchesCount(s: string)
    requires NoTerminators(s)
    ensures |Matches(s)| == (|s| + Width - 1) / Width
    decreases |s|
  {
    if s != [] {
      var n := Run(s, Width);
      assert NoTerminators(s[n..]);
      MatchesCount(s[n..]);
    }
  }

  /** The greedy run can only grow when text is appended, and does not change
      at all when it already stopped inside `s`. */
  lemma {:induction false} RunAppend(s: string, t: string, k: nat)
    ensures Run(s, k) <= Run(s + t, k)
    ensures Run(s, k) < |s| ==> Run(s + t, k) == Run(s, k)
  {
    if s != [] && k != 0 && !IsTerminator(s[0]) {
      assert (s + t)[1..] == s[1..] + t;
      RunAppend(s[1..], t, k - 1);
    }
  }

  /** Appending text never loses a block: the typewriter can overwrite lines
      but never has fewer of them than on the tick before. */
  lemma {:induction false} MatchesGrow(s: string, t: string)
    ensures |Matches(s)| <= |Matches(s + t)|
    decreases |s|
  {
    if s != [] {
      assert (s + t)[0] == s[0];
      if IsTerminator(s[0]) {
        assert (s + t)[1..] == s[1..] + t;
        MatchesGrow(s[1..], t);
      } else {
        var n := Run(s, Width);
        RunAppend(s, t, Width);
        if n < |s| {
          assert (s + t)[n..] == s[n..] + t;
          MatchesGrow(s[n..], t);
        } else {
          assert s[n..] == [];
        }
      }
    }
  }

  lemma ChunksGrow(s: string, t: string)
    ensures |Chunks(s)| <= |Chunks(s + t)|
  {
    MatchesGrow(s, t);
  }

  /** Joining the blocks gives back the text without its terminators. */
  lemma ChunksConcat(s: string)
    ensures Concat(Chunks(s)) == Strip(s)
  {
    MatchesConcat(s);
    if Matches(s) == [] {
      assert Chunks(s) == [""];
      assert Concat([""]) == "" + Concat([]);
    }
  }

  /** `Chunks` always yields at least one block, each of at most 46
      characters and free of terminators, and the blocks put together are the
      text without its terminators. */
  lemma ChunksShape(s: string)
    ensures |Chunks(s)| >= 1
    ensures Concat(Chunks(s)) == Strip(s)
    ensures forall k :: 0 <= k < |Chunks(s)| ==> |Chunks(s)[k]| <= Width && NoTerminators(Chunks(s)[k])
  {
    ChunksConcat(s);
    MatchesBlocks(s);
    if Matches(s) == [] {
      assert Chunks(s) == [""];
    } else {
      assert Chunks(s) == Matches(s);
    }
  }

  /** On a text without terminators: the empty text alone gives the single
      empty block; otherwise every block holds 1 to 46 characters, all but the
      last hold exactly 46, and there is one block per started 46 characters. */
  lemma ChunksOfLine(s: string)
    requires NoTerminators(s)
    ensures Chunks(s) == [""] <==> s == []
    ensures s != [] ==> Chunks(s) == Matches(s) && |Chunks(s)| == (|s| + Width - 1) / Width
    ensures s != [] ==> forall k :: 0 <= k < |Chunks(s)| ==> 1 <= |Chunks(s)[k]|
    ensures forall k :: 0 <= k < |Chunks(s)| - 1 ==> |Chunks(s)[k]| == Width
  {
    MatchesFull(s);
    MatchesCount(s);
    MatchesBlocks(s);
    if s != [] {
      assert Matches(s) != [] && |Matches(s)[0]| >= 1;
      assert Chunks(s)[0] != "";
    }
  }

  // ---------------------------------------------------------------------
  // Properties of splitWithPrefix

  /** Every line of a prefixed turn starts with that turn's prefix and
      continues with the corresponding block of its body; an unprefixed text is
      split without adding anything. */
  lemma SplitLines(s: string)
    ensures |SplitWithPrefix(s)| == |Chunks(Body(s))| >= 1
    ensures forall k :: 0 <= k < |SplitWithPrefix(s)| ==>
              SplitWithPrefix(s)[k] == TurnPrefix(s) + Chunks(Body(s))[k]
    ensures HasTurnPrefix(s) ==>
              forall k :: 0 <= k < |SplitWithPrefix(s)| ==>
                |SplitWithPrefix(s)[k]| >= 2 && SplitWithPrefix(s)[k][..2] == s[..2]
    ensures !HasTurnPrefix(s) ==> SplitWithPrefix(s) == Chunks(s)
  {
    ChunksShape(Body(s));
    PrefixEachAt(TurnPrefix(s), Chunks(Body(s)));
  }

  /** Writing the empty prefix in front of every block changes nothing. */
  lemma {:induction false} PrefixEachEmpty(cs: seq<string>)
    ensures PrefixEach("", cs) == cs
  {
    if cs != [] {
      PrefixEachEmpty(cs[1..]);
      assert "" + cs[0] == cs[0];
    }
  }

  /** A text is its turn prefix followed by its body. */
  lemma PrefixThenBody(s: string)
    ensures s == TurnPrefix(s) + Body(s)
    ensures |TurnPrefix(s)| <= |s|
  {
    if HasTurnPrefix(s) {
      assert s == s[..2] + s[2..];
    }
  }

  /** `splitWithPrefix` is `PrefixEach` of the turn prefix over the body's
      blocks in both cases, since the missing prefix is the empty string. */
  lemma SplitIsPrefixEach(s: string)
    ensures SplitWithPrefix(s) == PrefixEach(TurnPrefix(s), Chunks(Body(s)))
  {
    PrefixEachEmpty(Chunks(Body(s)));
  }

  /** No display line is wider than 48 characters: 46 of body, 2 of prefix. */
  lemma SplitWidth(s: string)
    ensures forall k :: 0 <= k < |SplitWithPrefix(s)| ==>
              |SplitWithPrefix(s)[k]| <= Width + 2
  {
    SplitLines(s);
    ChunksShape(Body(s));
  }

  /** The lines of a turn with their prefixes removed give back its body. */
  function Unsplit(p: string, lines: seq<string>): string {
    if lines == [] then []
    else (if |p| <= |lines[0]| then lines[0][|p|..] else []) + Unsplit(p, lines[1..])
  }

  lemma {:induction false} UnsplitPrefixEach(p: string, cs: seq<string>)
    ensures Unsplit(p, PrefixEach(p, cs)) == Concat(cs)
  {
    if cs != [] {
      UnsplitPrefixEach(p, cs[1..]);
      assert PrefixEach(p, cs)[1..] == PrefixEach(p, cs[1..]);
      assert (p + cs[0])[|p|..] == cs[0];
    }
  }

  /** The body of a text without terminators has none either. */
  lemma BodyClean(s: string)
    requires NoTerminators(s)
    ensures NoTerminators(Body(s))
  {
    if HasTurnPrefix(s) {
      assert forall i :: 0 <= i < |s| - 2 ==> s[2..][i] == s[i + 2];
    }
  }

  /** Round trip: a text without line terminators is its prefix followed by
      its lines with the prefix taken off again. */
  lemma SplitRoundTrip(s: string)
    requires NoTerminators(s)
    ensures s == TurnPrefix(s) + Unsplit(TurnPrefix(s), SplitWithPrefix(s))
  {
    var p, b := TurnPrefix(s), Body(s);
    SplitIsPrefixEach(s);
    UnsplitPrefixEach(p, Chunks(b));
    PrefixThenBody(s);
    BodyClean(s);
    ChunksConcat(b);
    StripClean(b);
  }

  /** A short text with no prefix and no terminators is one line of its own. */
  lemma ShortLine(s: string)
    requires 0 < |s| <= Width && NoTerminators(s) && !HasTurnPrefix(s)
    ensures SplitWithPrefix(s) == [s]
  {
    assert Body(s) == s;
    assert Run(s, Width) == |s|;
    assert s[|s|..] == [];
    assert s[..|s|] == s;
    assert Matches(s) == [s] + Matches([]);
  }

  // ---------------------------------------------------------------------
  // Line colours

  const ReplyColor := "#d5df7c"
  const UserColor := "#ffffff"
  const SystemColor := "#9F9FFF"

  /** `getLineColor`: yellow for a line starting with '<', white for one
      starting with '>', the screen's own colour for anything else. */
  function LineColor(ln: string): (c: string)
    ensures c in {ReplyColor, UserColor, SystemColor}
  {
    if |ln| > 0 && ln[0] == '<' then ReplyColor
    else if |ln| > 0 && ln[0] == '>' then UserColor
    else SystemColor
  }

  /** The colours are told apart by the first character alone. */
  lemma LineColorCases(ln: string)
    ensures LineColor(ln) == ReplyColor <==> |ln| > 0 && ln[0] == '<'
    ensures LineColor(ln) == UserColor <==> |ln| > 0 && ln[0] == '>'
    ensures LineColor(ln) == SystemColor <==> ln == [] || (ln[0] != '<' && ln[0] != '>')
  {
  }

  /** All lines of a prefixed turn have the colour of the turn: a wrapped
      reply stays yellow and a wrapped user line stays white on every line. */
  lemma SplitKeepsColor(s: string)
    requires HasTurnPrefix(s)
    ensures forall k :: 0 <= k < |SplitWithPrefix(s)| ==> LineColor(SplitWithPrefix(s)[k]) == LineColor(s)
  {
    SplitLines(s);
  }
}
