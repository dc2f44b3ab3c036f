/**
 * Formatting helpers: role prefixes and colours per UI variant, greedy word
 * wrapping of message text, and message filtering.
 */
module MessageFormatting {
  import opened JsString
  import opened Types

  /** The label shown before a message of each role. */
  datatype Prefixes = Prefixes(user: string, assistant: string, system: string, tool: string)

  const BasePrefixes := Prefixes("\U{1F464} You: ", "Assistant: ", "\U{2139}\U{FE0F}  system: ", "[tool] ")

  /** `git` relabels system and assistant, `chat` only assistant; every other variant uses the base labels. */
  function MessagePrefixes(variant: UIVariant): (p: Prefixes)
    ensures p.user == BasePrefixes.user && p.tool == BasePrefixes.tool
    ensures variant == Git ==> p.system == "[git] " && p.assistant == "Git Assistant: "
    ensures variant == Chat ==> p.system == BasePrefixes.system && p.assistant == "Chat: "
    ensures variant != Git && variant != Chat ==> p == BasePrefixes
  {
    match variant
    case Git => BasePrefixes.(system := "[git] ", assistant := "Git Assistant: ")
    case Chat => BasePrefixes.(assistant := "Chat: ")
    case _ => BasePrefixes
  }

  /** The content colour of a role; the variant is accepted and ignored. */
  function MessageColor(role: Role, variant: UIVariant): (c: string)
    ensures role == User || role == System ==> c == "gray"
    ensures role == Assistant ==> c == "white"
    ensures role == Tool ==> c == "magenta"
  {
    match role
    case User => "gray"
    case Assistant => "white"
    case System => "gray"
    case Tool => "magenta"
  }

  lemma ColorIgnoresVariant(role: Role, v: UIVariant, w: UIVariant)
    ensures MessageColor(role, v) == MessageColor(role, w)
  {
  }

  /*
   * Word wrapping. A line no longer than the limit is kept. A longer line is
   * split at every space into words (empty words included), and the words
   * are packed greedily: a word joins the current piece when the piece, a
   * space and the word fit in the limit, otherwise the current piece (if
   * non-empty) is closed and the word starts the next one. The pieces are
   * joined with line breaks.
   */

  datatype WrapState = WrapState(wrapped: seq<string>, current: string)

  function WrapStep(st: WrapState, word: string, max: int): WrapState {
    if |st.current| + 1 + |word| <= max then
      WrapState(st.wrapped, if st.current != "" then st.current + " " + word else word)
    else
      WrapState(if st.current != "" then st.wrapped + [st.current] else st.wrapped, word)
  }

  function WrapWords(st: WrapState, words: seq<string>, max: int): WrapState
    decreases |words|
  {
    if |words| == 0 then st else WrapWords(WrapStep(st, words[0], max), words[1..], max)
  }

  /** The non-empty pieces a long line is wrapped into. */
  function WrapPieces(line: string, max: int): seq<string> {
    var st := WrapWords(WrapState([], ""), Split(line, ' '), max);
    if st.current != "" then st.wrapped + [st.current] else st.wrapped
  }

  function WrapLine(line: string, max: int): (r: string)
    ensures |line| <= max ==> r == line
  {
    if |line| <= max then line else Join(WrapPieces(line, max), '\n')
  }

  function WrapAll(lines: seq<string>, max: int): (r: seq<string>)
    ensures |r| == |lines|
    ensures forall i :: 0 <= i < |lines| ==> r[i] == WrapLine(lines[i], max)
  {
    seq(|lines|, i requires 0 <= i < |lines| => WrapLine(lines[i], max))
  }

  /**
   * `formatMessageContent`: no limit, or a zero limit, returns the content as
   * it is; otherwise every line is wrapped to the limit.
   */
  function FormatMessageContent(content: string, maxLineLength: Option<int>): (r: string)
    ensures maxLineLength.None? || maxLineLength.value == 0 ==> r == content
  {
    if maxLineLength.None? || maxLineLength.value == 0 then content
    else Join(WrapAll(Split(content, '\n'), maxLineLength.value), '\n')
  }

  /** A piece that wrapping leaves alone: short enough, or a single word. */
  predicate Settled(piece: string, max: int) {
    (|piece| <= max || ' ' !in piece) && '\n' !in piece
  }

  predicate SettledState(st: WrapState, max: int) {
    && (forall i :: 0 <= i < |st.wrapped| ==> Settled(st.wrapped[i], max) && st.wrapped[i] != "")
    && Settled(st.current, max)
  }

  lemma {:induction false} WrapWordsSettled(st: WrapState, words: seq<string>, max: int)
    requires SettledState(st, max)
    requires forall i :: 0 <= i < |words| ==> ' ' !in words[i] && '\n' !in words[i]
    ensures SettledState(WrapWords(st, words, max), max)
    decreases |words|
  {
    if |words| > 0 {
      var next := WrapStep(st, words[0], max);
      assert '\n' !in st.current + " " + words[0];
      WrapWordsSettled(next, words[1..], max);
    }
  }

  /**
   * Every piece of a wrapped line is non-empty and has no line break, and a
   * piece longer than the limit has no space: words are never broken.
   */
  lemma WrapPiecesSettled(line: string, max: int)
    requires '\n' !in line
    ensures forall i :: 0 <= i < |WrapPieces(line, max)| ==>
      var p := WrapPieces(line, max)[i];
      p != "" && '\n' !in p && (|p| > max ==> ' ' !in p)
  {
    var words := Split(line, ' ');
    SplitPiecesLackSeparator(line, ' ');
    forall i | 0 <= i < |words|
      ensures '\n' !in words[i]
    {
      SplitPieceInside(line, ' ', i, '\n');
    }
    WrapWordsSettled(WrapState([], ""), words, max);
  }

  /** A piece of a split contains no character the whole does not contain. */
  lemma {:induction false} SplitPieceInside(s: string, sep: char, i: nat, c: char)
    requires i < |Split(s, sep)| && c !in s
    ensures c !in Split(s, sep)[i]
    decreases |s|
  {
    if |s| > 0 {
      var rest := Split(s[1..], sep);
      assert c !in s[1..];
      if s[0] == sep {
        if i > 0 {
          SplitPieceInside(s[1..], sep, i - 1, c);
        }
      } else if i == 0 {
        SplitPieceInside(s[1..], sep, 0, c);
        assert s[0] != c;
      } else {
        SplitPieceInside(s[1..], sep, i, c);
      }
    }
  }

  /** A settled piece is its own wrapping. */
  lemma WrapLineSettled(piece: string, max: int)
    requires Settled(piece, max)
    ensures WrapLine(piece, max) == piece
  {
    if |piece| > max {
      SplitNoSeparator(piece, ' ');
      assert WrapWords(WrapState([], ""), [piece], max) == WrapState([], piece);
    }
  }

  /** The lines of a wrapped line are settled. */
  lemma WrapLineLinesSettled(line: string, max: int)
    requires '\n' !in line
    ensures forall i :: 0 <= i < |Split(WrapLine(line, max), '\n')| ==>
      Settled(Split(WrapLine(line, max), '\n')[i], max)
  {
    if |line| <= max {
      SplitNoSeparator(line, '\n');
    } else {
      var pieces := WrapPieces(line, max);
      WrapPiecesSettled(line, max);
      if |pieces| == 0 {
        assert WrapLine(line, max) == "";
      } else {
        SplitJoin(pieces, '\n');
      }
    }
  }

  /** Every line of a joined text is a line of one of the joined parts. */
  lemma {:induction false} SplitJoinLines(ws: seq<string>, sep: char, x: string)
    requires |ws| > 0 && x in Split(Join(ws, sep), sep)
    ensures exists i :: 0 <= i < |ws| && x in Split(ws[i], sep)
    decreases |ws|
  {
    if |ws| > 1 {
      SplitConcat(ws[0], Join(ws[1..], sep), sep);
      if x !in Split(ws[0], sep) {
        SplitJoinLines(ws[1..], sep, x);
        var i :| 0 <= i < |ws[1..]| && x in Split(ws[1..][i], sep);
        assert x in Split(ws[i + 1], sep);
      }
    }
  }

  /** Formatting an already formatted text with the same limit changes nothing. */
  lemma FormatIdempotent(content: string, maxLineLength: Option<int>)
    ensures var once := FormatMessageContent(content, maxLineLength);
      FormatMessageContent(once, maxLineLength) == once
  {
    if maxLineLength.Some? && maxLineLength.value != 0 {
      var max := maxLineLength.value;
      var lines := Split(content, '\n');
      var wrapped := WrapAll(lines, max);
      var once := Join(wrapped, '\n');
      var again := Split(once, '\n');
      SplitPiecesLackSeparator(content, '\n');
      forall k | 0 <= k < |again|
        ensures WrapLine(again[k], max) == again[k]
      {
        SplitJoinLines(wrapped, '\n', again[k]);
        var i :| 0 <= i < |wrapped| && again[k] in Split(wrapped[i], '\n');
        var j :| 0 <= j < |Split(wrapped[i], '\n')| && Split(wrapped[i], '\n')[j] == again[k];
        WrapLineLinesSettled(lines[i], max);
        WrapLineSettled(again[k], max);
      }
      assert WrapAll(again, max) == again;
      JoinSplit(once, '\n');
    }
  }

  /** Every line no longer than the limit: formatting changes nothing. */
  lemma ShortLinesUnchanged(content: string, max: int)
    requires max != 0
    requires forall i :: 0 <= i < |Split(content, '\n')| ==> |Split(content, '\n')[i]| <= max
    ensures FormatMessageContent(content, Some(max)) == content
  {
    assert WrapAll(Split(content, '\n'), max) == Split(content, '\n');
    JoinSplit(content, '\n');
  }

  /** The text without its spaces and line breaks. */
  function Visible(s: string): (r: string)
    ensures |r| <= |s|
    decreases |s|
  {
    if |s| == 0 then ""
    else (if s[0] == ' ' || s[0] == '\n' then "" else [s[0]]) + Visible(s[1..])
  }

  lemma {:induction false} VisibleConcat(a: string, b: string)
    ensures Visible(a + b) == Visible(a) + Visible(b)
    decreases |a|
  {
    if |a| == 0 {
      assert a + b == b;
    } else {
      assert (a + b)[1..] == a[1..] + b;
      VisibleConcat(a[1..], b);
    }
  }

  function VisibleAll(xs: seq<string>): string
    decreases |xs|
  {
    if |xs| == 0 then "" else Visible(xs[0]) + VisibleAll(xs[1..])
  }

  lemma {:induction false} VisibleAllAppend(xs: seq<string>, x: string)
    ensures VisibleAll(xs + [x]) == VisibleAll(xs) + Visible(x)
    decreases |xs|
  {
    if |xs| == 0 {
      assert VisibleAll([x]) == Visible(x) + VisibleAll([]);
    } else {
      assert (xs + [x])[1..] == xs[1..] + [x];
      VisibleAllAppend(xs[1..], x);
    }
  }

  /** Joining with a space or a line break adds nothing visible. */
  lemma {:induction false} VisibleJoin(xs: seq<string>, sep: char)
    requires sep == ' ' || sep == '\n'
    ensures Visible(Join(xs, sep)) == VisibleAll(xs)
    decreases |xs|
  {
    if |xs| == 1 {
      assert VisibleAll(xs) == Visible(xs[0]) + VisibleAll([]);
    } else if |xs| > 1 {
      assert Join(xs, sep) == xs[0] + [sep] + Join(xs[1..], sep);
      assert VisibleAll(xs) == Visible(xs[0]) + VisibleAll(xs[1..]);
      VisibleJoin(xs[1..], sep);
      VisibleConcat(xs[0] + [sep], Join(xs[1..], sep));
      VisibleConcat(xs[0], [sep]);
      assert Visible([sep]) == "";
    }
  }

  /** One packing step moves a word into the pieces without adding or losing visible text. */
  lemma WrapStepVisible(wrapped: seq<string>, current: string, w: string, max: int)
    ensures var next := WrapStep(WrapState(wrapped, current), w, max);
      VisibleAll(next.wrapped) + Visible(next.current) == VisibleAll(wrapped) + Visible(current) + Visible(w)
  {
    if |current| + 1 + |w| <= max {
      if current != "" {
        VisibleConcat(current + " ", w);
        VisibleConcat(current, " ");
      }
    } else if current != "" {
      VisibleAllAppend(wrapped, current);
    }
  }

  lemma {:induction false} WrapWordsVisible(st: WrapState, words: seq<string>, max: int)
    ensures var fin := WrapWords(st, words, max);
      VisibleAll(fin.wrapped) + Visible(fin.current) == VisibleAll(st.wrapped) + Visible(st.current) + VisibleAll(words)
    decreases |words|
  {
    if |words| > 0 {
      var next := WrapStep(st, words[0], max);
      WrapStepVisible(st.wrapped, st.current, words[0], max);
      assert WrapStep(WrapState(st.wrapped, st.current), words[0], max) == next;
      WrapWordsVisible(next, words[1..], max);
      assert VisibleAll(words) == Visible(words[0]) + VisibleAll(words[1..]);
    }
  }

  /** Wrapping a line keeps its characters other than spaces, in order. */
  lemma WrapLineVisible(line: string, max: int)
    ensures Visible(WrapLine(line, max)) == Visible(line)
  {
    if |line| > max {
      var words := Split(line, ' ');
      var fin := WrapWords(WrapState([], ""), words, max);
      WrapWordsVisible(WrapState([], ""), words, max);
      assert VisibleAll(fin.wrapped) + Visible(fin.current) == VisibleAll(words);
      if fin.current != "" {
        VisibleAllAppend(fin.wrapped, fin.current);
      } else {
        assert Visible(fin.current) == "";
      }
      assert VisibleAll(WrapPieces(line, max)) == VisibleAll(words);
      VisibleJoin(WrapPieces(line, max), '\n');
      VisibleJoin(words, ' ');
      JoinSplit(line, ' ');
    }
  }

  lemma {:induction false} VisibleAllWrapped(lines: seq<string>, max: int)
    ensures VisibleAll(WrapAll(lines, max)) == VisibleAll(lines)
    decreases |lines|
  {
    if |lines| > 0 {
      WrapLineVisible(lines[0], max);
      VisibleAllWrapped(lines[1..], max);
      assert WrapAll(lines, max)[1..] == WrapAll(lines[1..], max);
    }
  }

  /** Formatting only moves line breaks and spaces: the other characters stay, in order. */
  lemma FormatKeepsVisibleText(content: string, maxLineLength: Option<int>)
    ensures Visible(FormatMessageContent(content, maxLineLength)) == Visible(content)
  {
    if maxLineLength.Some? && maxLineLength.value != 0 {
      var lines := Split(content, '\n');
      VisibleJoin(WrapAll(lines, maxLineLength.value), '\n');
      VisibleAllWrapped(lines, maxLineLength.value);
      VisibleJoin(lines, '\n');
      JoinSplit(content, '\n');
    }
  }

  lemma SplitThree(a: string, b: string, c: string, sep: char)
    requires sep !in a && sep !in b && sep !in c
    ensures Split(a + [sep] + b + [sep] + c, sep) == [a, b, c]
  {
    assert a + [sep] + b + [sep] + c == a + [sep] + (b + [sep] + c);
    SplitConcat(a, b + [sep] + c, sep);
    SplitConcat(b, c, sep);
    SplitNoSeparator(a, sep);
    SplitNoSeparator(b, sep);
    SplitNoSeparator(c, sep);
  }

  lemma SplitExample()
    ensures Split("aa bb cc", ' ') == ["aa", "bb", "cc"]
  {
    assert "aa bb cc" == "aa" + [' '] + "bb" + [' '] + "cc";
    SplitThree("aa", "bb", "cc", ' ');
  }

  lemma WrapWordsExample()
    ensures WrapWords(WrapState([], ""), ["aa", "bb", "cc"], 5) == WrapState(["aa bb"], "cc")
  {
    var words := ["aa", "bb", "cc"];
    var s1 := WrapState([], "aa");
    var s2 := WrapState([], "aa bb");
    var s3 := WrapState(["aa bb"], "cc");
    assert WrapStep(WrapState([], ""), "aa", 5) == s1;
    assert WrapStep(s1, "bb", 5) == s2;
    assert WrapStep(s2, "cc", 5) == s3;
    assert WrapWords(s3, words[3..], 5) == s3;
    assert WrapWords(s2, words[2..], 5) == s3;
  }

  lemma JoinExample()
    ensures Join(["aa bb", "cc"], '\n') == "aa bb\ncc"
  {
    assert Join(["cc"], '\n') == "cc";
  }

  /** A long line of short words wraps between words. */
  lemma WrapExample()
    ensures WrapLine("aa bb cc", 5) == "aa bb\ncc"
  {
    SplitExample();
    WrapWordsExample();
    JoinExample();
    assert |"aa bb cc"| == 8;
    assert WrapPieces("aa bb cc", 5) == ["aa bb", "cc"];
  }

  /** Which messages to keep; an absent criterion keeps everything. */
  datatype Criteria = Criteria(role: Option<Role>, status: Option<Status>, hideEmpty: bool, hideSystem: bool)

  const NoCriteria := Criteria(None, None, false, false)

  predicate Meets(m: Message, c: Criteria) {
    && (c.role.None? || m.role == c.role.value)
    && (c.status.None? || m.status == c.status.value)
    && !(c.hideEmpty && AllWhitespace(m.content))
    && !(c.hideSystem && m.role == System)
  }

  /** `filterMessages`: the messages meeting every criterion, in their order. */
  function FilterMessages(msgs: seq<Message>, c: Criteria): (r: seq<Message>)
    ensures |r| <= |msgs|
    ensures forall i :: 0 <= i < |r| ==> Meets(r[i], c)
    ensures forall m :: m in r <==> m in msgs && Meets(m, c)
    decreases |msgs|
  {
    if |msgs| == 0 then []
    else (if Meets(msgs[0], c) then [msgs[0]] else []) + FilterMessages(msgs[1..], c)
  }

  /** Filtering a concatenation filters each part: the order is kept. */
  lemma {:induction false} FilterConcat(a: seq<Message>, b: seq<Message>, c: Criteria)
    ensures FilterMessages(a + b, c) == FilterMessages(a, c) + FilterMessages(b, c)
    decreases |a|
  {
    if |a| == 0 {
      assert a + b == b;
    } else {
      assert (a + b)[1..] == a[1..] + b;
      FilterConcat(a[1..], b, c);
    }
  }

  /** No criteria keep every message. */
  lemma {:induction false} FilterNoCriteria(msgs: seq<Message>)
    ensures FilterMessages(msgs, NoCriteria) == msgs
    decreases |msgs|
  {
    if |msgs| > 0 {
      assert Meets(msgs[0], NoCriteria);
      FilterNoCriteria(msgs[1..]);
      assert msgs == [msgs[0]] + msgs[1..];
    }
  }

  /** Filtering twice with the same criteria is filtering once. */
  lemma {:induction false} FilterIdempotent(msgs: seq<Message>, c: Criteria)
    ensures FilterMessages(FilterMessages(msgs, c), c) == FilterMessages(msgs, c)
    decreases |msgs|
  {
    if |msgs| > 0 {
      var rest := FilterMessages(msgs[1..], c);
      FilterIdempotent(msgs[1..], c);
      if Meets(msgs[0], c) {
        var r := [msgs[0]] + rest;
        assert FilterMessages(msgs, c) == r;
        assert r[1..] == rest;
        assert FilterMessages(r, c) == [msgs[0]] + FilterMessages(rest, c);
      } else {
        assert FilterMessages(msgs, c) == rest;
      }
    }
  }
}
