/**
 * The commit view of src/commit_state.rs: turning a printed patch into
 * typed display lines, building the view from the repository's answers,
 * and reacting to input.
 */
module Commit {
  import opened Wrappers
  import opened Keys
  import opened State
  import opened Git

  /** The kind of a diff line. */
  datatype LineType = FileHeader | HunkHeader | Context | Insertion | Deletion

  /** A display line of the diff with its kind. */
  datatype Line = Line(kind: LineType, text: string)

  // ---------------------------------------------------------------------
  // Splitting and joining on a separator (Rust's `str::split` with a char)
  // ---------------------------------------------------------------------

  /**
   * The pieces of `s` between occurrences of `sep`. As with Rust's
   * `split`, the empty string gives one empty piece and a trailing
   * separator gives a trailing empty piece.
   */
  function Split(s: string, sep: char): (pieces: seq<string>)
    ensures |pieces| >= 1
  {
    if s == [] then [[]]
    else
      var rest := Split(s[1..], sep);
      if s[0] == sep then [[]] + rest
      else [[s[0]] + rest[0]] + rest[1..]
  }

  /** The pieces glued back together with `sep` between neighbours. */
  function Join(pieces: seq<string>, sep: char): string
    requires |pieces| >= 1
  {
    if |pieces| == 1 then pieces[0]
    else pieces[0] + [sep] + Join(pieces[1..], sep)
  }

  /** Splitting yields one piece more than there are separators, none containing one. */
  lemma {:induction false} SplitPieces(s: string, sep: char)
    ensures |Split(s, sep)| == multiset(s)[sep] + 1
    ensures forall k :: 0 <= k < |Split(s, sep)| ==> sep !in Split(s, sep)[k]
  {
    if s != [] {
      SplitPieces(s[1..], sep);
      assert s == [s[0]] + s[1..];
      assert multiset(s) == multiset{s[0]} + multiset(s[1..]);
    }
  }

  /** Joining the pieces gives back the original text. */
  lemma {:induction false} JoinSplit(s: string, sep: char)
    ensures Join(Split(s, sep), sep) == s
  {
    if s != [] {
      JoinSplit(s[1..], sep);
      var rest := Split(s[1..], sep);
      var pieces := Split(s, sep);
      assert s == [s[0]] + s[1..];
      if s[0] == sep {
        assert pieces[0] == [] && pieces[1..] == rest;
        assert Join(pieces, sep) == [] + [sep] + Join(rest, sep);
      } else if |rest| == 1 {
        assert pieces == [[s[0]] + rest[0]];
      } else {
        assert pieces[0] == [s[0]] + rest[0] && pieces[1..] == rest[1..];
        assert Join(pieces, sep) == ([s[0]] + rest[0]) + [sep] + Join(rest[1..], sep);
        assert Join(rest, sep) == rest[0] + [sep] + Join(rest[1..], sep);
      }
    }
  }

  lemma {:induction false} SplitFreePrefix(p: string, t: string, sep: char)
    requires sep !in p
    ensures Split(p + t, sep) == [p + Split(t, sep)[0]] + Split(t, sep)[1..]
  {
    if p != [] {
      var pieces := Split(t, sep);
      SplitFreePrefix(p[1..], t, sep);
      assert (p + t)[1..] == p[1..] + t;
      var rest := Split(p[1..] + t, sep);
      assert rest[0] == p[1..] + pieces[0];
      assert rest[1..] == pieces[1..];
      assert [p[0]] + (p[1..] + pieces[0]) == p + pieces[0];
    } else {
      var pieces := Split(t, sep);
      assert p + t == t;
      assert p + pieces[0] == pieces[0];
      assert pieces == [pieces[0]] + pieces[1..];
    }
  }

  /** Splitting a join of separator-free pieces gives back the pieces. */
  lemma {:induction false} SplitJoin(pieces: seq<string>, sep: char)
    requires |pieces| >= 1
    requires forall k :: 0 <= k < |pieces| ==> sep !in pieces[k]
    ensures Split(Join(pieces, sep), sep) == pieces
  {
    if |pieces| == 1 {
      SplitFreePrefix(pieces[0], [], sep);
      assert pieces[0] + [] == pieces[0];
    } else {
      var tail := Join(pieces[1..], sep);
      SplitJoin(pieces[1..], sep);
      SplitFreePrefix(pieces[0], [sep] + tail, sep);
      assert pieces[0] + [sep] + tail == pieces[0] + ([sep] + tail);
      assert ([sep] + tail)[1..] == tail;
      assert Split([sep] + tail, sep) == [[]] + Split(tail, sep);
      assert pieces[0] + [] == pieces[0];
    }
  }

  // ---------------------------------------------------------------------
  // Classifying patch lines
  // ---------------------------------------------------------------------

  /** The kind of a prefixed (non-header) patch line. */
  function KindOf(origin: char): (kind: LineType)
    ensures kind == Insertion <==> origin == '+'
    ensures kind == Deletion <==> origin == '-'
    ensures kind == Context <==> origin != '+' && origin != '-'
  {
    match origin
    case '+' => Insertion
    case '-' => Deletion
    case _ => Context
  }

  function FileHeaders(pieces: seq<string>): seq<Line>
  {
    seq(|pieces|, k requires 0 <= k < |pieces| => Line(FileHeader, pieces[k]))
  }

  function Texts(lines: seq<Line>): seq<string>
  {
    seq(|lines|, k requires 0 <= k < |lines| => lines[k].text)
  }

  /**
   * The display lines one raw patch line turns into: a file header is cut
   * at its line breaks, a hunk header is kept as it is, and every other
   * line is prefixed by its origin character and a space.
   */
  function ClassifyOne(raw: RawLine): seq<Line>
  {
    if raw.origin == 'F' then
      FileHeaders(Split(raw.content, '\n'))
    else if raw.origin == 'H' then
      [Line(HunkHeader, raw.content)]
    else
      [Line(KindOf(raw.origin), [raw.origin, ' '] + raw.content)]
  }

  /**
   * What one raw line turns into: an 'F' line with k line breaks gives
   * k + 1 break-free file headers that join back to its content; an 'H'
   * line gives one hunk header with the content unchanged; any other
   * origin gives one line "<origin> <content>" whose kind follows the
   * origin.
   */
  lemma ClassifyOneShape(raw: RawLine)
    ensures var lines := ClassifyOne(raw);
      raw.origin == 'F' ==>
        && |lines| == multiset(raw.content)['\n'] + 1
        && (forall k :: 0 <= k < |lines| ==> lines[k].kind == FileHeader && '\n' !in lines[k].text)
        && Join(Texts(lines), '\n') == raw.content
    ensures raw.origin == 'H' ==> ClassifyOne(raw) == [Line(HunkHeader, raw.content)]
    ensures var lines := ClassifyOne(raw);
      raw.origin != 'F' && raw.origin != 'H' ==>
        && |lines| == 1
        && lines[0].text == [raw.origin, ' '] + raw.content
        && (lines[0].kind == Insertion <==> raw.origin == '+')
        && (lines[0].kind == Deletion <==> raw.origin == '-')
        && (lines[0].kind == Context <==> raw.origin != '+' && raw.origin != '-')
  {
    if raw.origin == 'F' {
      var pieces := Split(raw.content, '\n');
      SplitPieces(raw.content, '\n');
      JoinSplit(raw.content, '\n');
      assert Texts(FileHeaders(pieces)) == pieces;
    }
  }

  /** The chunks laid end to end. */
  function Flatten<T>(chunks: seq<seq<T>>): seq<T>
  {
    if chunks == [] then [] else chunks[0] + Flatten(chunks[1..])
  }

  lemma {:induction false} FlattenConcat<T>(a: seq<seq<T>>, b: seq<seq<T>>)
    ensures Flatten(a + b) == Flatten(a) + Flatten(b)
  {
    if a == [] {
      assert a + b == b;
    } else {
      var ab := a + b;
      assert ab[0] == a[0];
      assert ab[1..] == a[1..] + b;
      FlattenConcat(a[1..], b);
      calc {
        Flatten(ab);
        a[0] + Flatten(a[1..] + b);
        a[0] + (Flatten(a[1..]) + Flatten(b));
        (a[0] + Flatten(a[1..])) + Flatten(b);
      }
    }
  }

  /** The display lines of each raw line, one chunk per raw line. */
  function PerLine(raws: seq<RawLine>): seq<seq<Line>>
  {
    seq(|raws|, i requires 0 <= i < |raws| => ClassifyOne(raws[i]))
  }

  /** The display lines of a whole patch: each raw line's lines, in order. */
  function Classify(raws: seq<RawLine>): seq<Line>
  {
    Flatten(PerLine(raws))
  }

  /** Classifying a concatenation classifies each part and concatenates. */
  lemma ClassifyConcat(a: seq<RawLine>, b: seq<RawLine>)
    ensures Classify(a + b) == Classify(a) + Classify(b)
  {
    assert PerLine(a + b) == PerLine(a) + PerLine(b);
    FlattenConcat(PerLine(a), PerLine(b));
  }

  /** A single raw line is classified on its own. */
  lemma ClassifySingle(raw: RawLine)
    ensures Classify([raw]) == ClassifyOne(raw)
  {
    var chunks := PerLine([raw]);
    assert chunks == [ClassifyOne(raw)];
    assert chunks[1..] == [];
    assert Flatten(chunks) == ClassifyOne(raw) + Flatten(chunks[1..]);
    assert ClassifyOne(raw) + [] == ClassifyOne(raw);
  }

  /**
   * Nothing is dropped or reordered: the lines of the i-th raw line sit,
   * unchanged, right after the lines of all raw lines before it.
   */
  lemma ClassifyAt(raws: seq<RawLine>, i: nat)
    requires i < |raws|
    ensures
      var before := |Classify(raws[..i])|;
      var after := |Classify(raws[..i + 1])|;
      && before + |ClassifyOne(raws[i])| == after <= |Classify(raws)|
      && Classify(raws)[before..after] == ClassifyOne(raws[i])
  {
    var prefix, rest := raws[..i], raws[i + 1..];
    assert raws[..i + 1] == prefix + [raws[i]];
    assert raws == raws[..i + 1] + rest;
    ClassifyConcat(prefix, [raws[i]]);
    ClassifySingle(raws[i]);
    ClassifyConcat(raws[..i + 1], rest);
    SliceMiddle(Classify(prefix), ClassifyOne(raws[i]), Classify(rest));
  }

  lemma SliceMiddle<T>(x: seq<T>, y: seq<T>, z: seq<T>)
    ensures (x + y + z)[|x|..|x| + |y|] == y
  {
  }

  /**
   * A multi-line file header is cut back into exactly the lines it was
   * made of, each one a file-header line.
   */
  lemma FileHeaderLines(header: seq<string>)
    requires |header| >= 1
    requires forall k :: 0 <= k < |header| ==> '\n' !in header[k]
    ensures ClassifyOne(RawLine('F', Join(header, '\n'))) == FileHeaders(header)
  {
    SplitJoin(header, '\n');
  }

  /** A hunk header and three prefixed lines, one of each kind. */
  lemma ExampleBodyLines()
    ensures ClassifyOne(RawLine('H', "@@ -1,2 +1,2 @@")) == [Line(HunkHeader, "@@ -1,2 +1,2 @@")]
    ensures ClassifyOne(RawLine('+', "new")) == [Line(Insertion, "+ new")]
    ensures ClassifyOne(RawLine('-', "old")) == [Line(Deletion, "- old")]
    ensures ClassifyOne(RawLine(' ', "same")) == [Line(Context, "  same")]
  {
    assert ['+', ' '] + "new" == "+ new";
    assert ['-', ' '] + "old" == "- old";
    assert [' ', ' '] + "same" == "  same";
  }

  // Counting lines by kind and raw lines by origin

  function CountKind(lines: seq<Line>, kind: LineType): nat
  {
    if lines == [] then 0
    else CountKind(lines[..|lines| - 1], kind) + (if lines[|lines| - 1].kind == kind then 1 else 0)
  }

  function CountOrigin(raws: seq<RawLine>, origin: char): nat
  {
    if raws == [] then 0
    else CountOrigin(raws[..|raws| - 1], origin) + (if raws[|raws| - 1].origin == origin then 1 else 0)
  }

  /** The number of file-header pieces: one more than the line breaks of each 'F' line. */
  function HeaderPieces(raws: seq<RawLine>): nat
  {
    if raws == [] then 0
    else
      var last := raws[|raws| - 1];
      HeaderPieces(raws[..|raws| - 1]) + (if last.origin == 'F' then multiset(last.content)['\n'] + 1 else 0)
  }

  lemma {:induction false} CountKindConcat(a: seq<Line>, b: seq<Line>, kind: LineType)
    ensures CountKind(a + b, kind) == CountKind(a, kind) + CountKind(b, kind)
  {
    if b == [] {
      assert a + b == a;
    } else {
      var n := |b| - 1;
      CountKindConcat(a, b[..n], kind);
      assert (a + b)[..|a + b| - 1] == a + b[..n];
    }
  }

  lemma {:induction false} CountKindUniform(lines: seq<Line>, uniform: LineType, kind: LineType)
    requires forall k :: 0 <= k < |lines| ==> lines[k].kind == uniform
    ensures CountKind(lines, kind) == if kind == uniform then |lines| else 0
  {
    if lines != [] {
      CountKindUniform(lines[..|lines| - 1], uniform, kind);
    }
  }

  /** The kinds of the lines of one raw line, counted. */
  lemma OneLineCounts(raw: RawLine)
    ensures var lines := ClassifyOne(raw);
      && CountKind(lines, Insertion) == (if raw.origin == '+' then 1 else 0)
      && CountKind(lines, Deletion) == (if raw.origin == '-' then 1 else 0)
      && CountKind(lines, HunkHeader) == (if raw.origin == 'H' then 1 else 0)
      && CountKind(lines, FileHeader) == (if raw.origin == 'F' then multiset(raw.content)['\n'] + 1 else 0)
      && CountKind(lines, Context) == (if raw.origin in "FH+-" then 0 else 1)
  {
    var lines := ClassifyOne(raw);
    ClassifyOneShape(raw);
    var uniform := if raw.origin == 'F' then FileHeader
                   else if raw.origin == 'H' then HunkHeader
                   else KindOf(raw.origin);
    forall kind: LineType
      ensures CountKind(lines, kind) == if kind == uniform then |lines| else 0
    {
      CountKindUniform(lines, uniform, kind);
    }
  }

  /**
   * Line counts by kind against raw line counts by origin: insertions are
   * the '+' lines, deletions the '-' lines, hunk headers the 'H' lines,
   * file headers come only from 'F' lines, and context lines are the rest.
   */
  lemma {:induction false} KindCounts(raws: seq<RawLine>)
    ensures CountKind(Classify(raws), Insertion) == CountOrigin(raws, '+')
    ensures CountKind(Classify(raws), Deletion) == CountOrigin(raws, '-')
    ensures CountKind(Classify(raws), HunkHeader) == CountOrigin(raws, 'H')
    ensures CountKind(Classify(raws), FileHeader) == HeaderPieces(raws)
    ensures CountOrigin(raws, 'F') <= HeaderPieces(raws)
    ensures HeaderPieces(raws) == 0 <==> CountOrigin(raws, 'F') == 0
    ensures CountKind(Classify(raws), Context) ==
      |raws| - CountOrigin(raws, '+') - CountOrigin(raws, '-') - CountOrigin(raws, 'H') - CountOrigin(raws, 'F')
  {
    if raws == [] {
      assert PerLine(raws) == [];
    } else {
      var init, last := raws[..|raws| - 1], raws[|raws| - 1];
      KindCounts(init);
      OneLineCounts(last);
      assert raws == init + [last];
      ClassifyConcat(init, [last]);
      ClassifySingle(last);
      var front, tail := Classify(init), ClassifyOne(last);
      assert Classify(raws) == front + tail;
      CountKindConcat(front, tail, Insertion);
      CountKindConcat(front, tail, Deletion);
      CountKindConcat(front, tail, HunkHeader);
      CountKindConcat(front, tail, FileHeader);
      CountKindConcat(front, tail, Context);
    }
  }

  // ---------------------------------------------------------------------
  // The commit view
  // ---------------------------------------------------------------------

  /**
   * Builds the display lines the way the `diff.print` callback does:
   * one raw line at a time, appending that line's display lines.
   */
  method BuildDiffLines(raws: seq<RawLine>) returns (lines: seq<Line>)
    ensures lines == Classify(raws)
  {
    lines := [];
    for i := 0 to |raws|
      invariant lines == Classify(raws[..i])
    {
      assert raws[..i + 1] == raws[..i] + [raws[i]];
      ClassifyConcat(raws[..i], [raws[i]]);
      ClassifySingle(raws[i]);
      lines := lines + ClassifyOne(raws[i]);
    }
    assert raws[..|raws|] == raws;
  }

  /** The state of the commit view. */
  datatype CommitState = CommitState(
    commitInfo: CommitInfo,
    filesChanged: nat,
    insertions: nat,
    deletions: nat,
    diffLines: seq<Line>)
  {
    /** `q` closes the view; every other event is ignored. */
    function HandleEvent(event: Event): (r: CommandResult)
      ensures r == PopState <==> event.Key? && event.code == Char('q') && event.modifiers == {}
      ensures r != PopState ==> r == Keep
    {
      if event == Q then PopState else Keep
    }
  }

  /**
   * `CommitState::new`. The repository's answers are parameters: the
   * number of parents of the commit and the diff of its tree against its
   * first parent's tree (or the error a lookup raised). A commit without
   * a parent fails at `parent(0)`.
   */
  method New(commit: CommitInfo, parentCount: nat, diff: Result<Patch, GitError>)
    returns (r: Result<CommitState, GitError>)
    ensures parentCount == 0 ==> r == Failure(NoParent)
    ensures parentCount > 0 && diff.Failure? ==> r == Failure(diff.error)
    ensures r.Success? <==> parentCount > 0 && diff.Success?
    ensures r.Success? ==>
      && r.value.commitInfo == commit
      && r.value.filesChanged == diff.value.stats.filesChanged
      && r.value.insertions == diff.value.stats.insertions
      && r.value.deletions == diff.value.stats.deletions
      && r.value.diffLines == Classify(diff.value.lines)
  {
    if parentCount == 0 {
      return Failure(NoParent);
    }
    match diff
    case Failure(e) =>
      r := Failure(e);
    case Success(patch) =>
      var lines := BuildDiffLines(patch.lines);
      var stats := patch.stats;
      r := Success(CommitState(commit, stats.filesChanged, stats.insertions, stats.deletions, lines));
  }
}
