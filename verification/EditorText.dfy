/** A text file as the script editor sees it: a list of lines, and back. */
module EditorText {

  predicate OneLine(l: string) { '\n' !in l }

  ghost predicate AllOneLine(lines: seq<string>) {
    forall i :: 0 <= i < |lines| ==> OneLine(lines[i])
  }

  function Split(s: string): (lines: seq<string>)
    ensures lines != [] && AllOneLine(lines)
  {
    if s == "" then [""]
    else
      var rest := Split(s[1..]);
      if s[0] == '\n' then [""] + rest else [[s[0]] + rest[0]] + rest[1..]
  }

  function Join(lines: seq<string>): string {
    if lines == [] then ""
    else if |lines| == 1 then lines[0]
    else lines[0] + "\n" + Join(lines[1..])
  }

  /** The lines of a file, without the empty one behind a final newline. */
  function Lines(content: string): (lines: seq<string>)
    ensures AllOneLine(lines)
  {
    if content == "" then []
    else
      var lines := Split(content);
      if lines[|lines| - 1] == "" then lines[..|lines| - 1] else lines
  }

  /** The lines, each ended by a newline. */
  function Text(lines: seq<string>): string {
    var content := Join(lines);
    if content != "" then content + "\n" else content
  }

  lemma {:induction false} SplitOneLine(l: string)
    requires OneLine(l)
    ensures Split(l) == [l]
  {
    if l != "" {
      SplitOneLine(l[1..]);
      assert l == [l[0]] + l[1..];
    }
  }

  lemma {:induction false} SplitFirst(l: string, rest: string)
    requires OneLine(l)
    ensures Split(l + "\n" + rest) == [l] + Split(rest)
  {
    var s := l + "\n" + rest;
    if l == "" {
      assert s[1..] == rest;
    } else {
      SplitFirst(l[1..], rest);
      assert s[1..] == l[1..] + "\n" + rest;
      assert l == [l[0]] + l[1..];
    }
  }

  lemma {:induction false} SplitOfJoin(lines: seq<string>)
    requires AllOneLine(lines) && lines != []
    ensures Split(Join(lines)) == lines
  {
    if |lines| == 1 {
      SplitOneLine(lines[0]);
    } else {
      SplitOfJoin(lines[1..]);
      SplitFirst(lines[0], Join(lines[1..]));
      assert lines == [lines[0]] + lines[1..];
    }
  }

  lemma JoinHead(c: string, lines: seq<string>)
    requires lines != []
    ensures Join([c + lines[0]] + lines[1..]) == c + Join(lines)
  {
    var rest := lines[1..];
    assert ([c + lines[0]] + rest)[1..] == rest;
    if rest != [] {
      var tail := "\n" + Join(rest);
      assert c + lines[0] + tail == c + (lines[0] + tail);
    }
  }

  lemma JoinBlank(lines: seq<string>)
    requires lines != []
    ensures Join([""] + lines) == "\n" + Join(lines)
  {
    assert ([""] + lines)[1..] == lines;
  }

  lemma {:induction false} JoinOfSplit(s: string)
    ensures Join(Split(s)) == s
  {
    if s != "" {
      hide Join;
      JoinOfSplit(s[1..]);
      JoinHead([s[0]], Split(s[1..]));
      JoinBlank(Split(s[1..]));
      assert s == [s[0]] + s[1..];
    } else {
      assert Join([""]) == "";
    }
  }

  lemma {:induction false} JoinWithEmpty(lines: seq<string>)
    requires lines != []
    ensures Join(lines + [""]) == Join(lines) + "\n"
  {
    if |lines| == 1 {
      assert (lines + [""])[1..] == [""];
    } else {
      JoinWithEmpty(lines[1..]);
      assert (lines + [""])[1..] == lines[1..] + [""];
    }
  }

  lemma JoinIsEmpty(lines: seq<string>)
    ensures Join(lines) == "" <==> lines == [] || lines == [""]
  {
  }

  /** Reading back what was written gives the same lines, for every list but the one blank line. */
  lemma LinesOfText(lines: seq<string>)
    requires AllOneLine(lines)
    ensures Lines(Text(lines)) == lines <==> lines != [""]
  {
    JoinIsEmpty(lines);
    if lines != [] && lines != [""] {
      JoinWithEmpty(lines);
      SplitOfJoin(lines + [""]);
      assert (lines + [""])[..|lines|] == lines;
    }
  }

  /** The lines that a list really has, if some of its elements hold newlines. */
  function Flat(lines: seq<string>): (flat: seq<string>)
    ensures AllOneLine(flat) && |flat| >= |lines|
  {
    if lines == [] then [] else Split(lines[0]) + Flat(lines[1..])
  }

  lemma {:induction false} FlatOneLine(lines: seq<string>)
    requires AllOneLine(lines)
    ensures Flat(lines) == lines
  {
    if lines != [] {
      SplitOneLine(lines[0]);
      FlatOneLine(lines[1..]);
    }
  }

  lemma {:induction false} FlatAppend(a: seq<string>, b: seq<string>)
    ensures Flat(a + b) == Flat(a) + Flat(b)
  {
    if a == [] {
      assert a + b == b;
    } else {
      assert (a + b)[1..] == a[1..] + b;
      FlatAppend(a[1..], b);
    }
  }

  lemma FlatAround(before: seq<string>, l: string, after: seq<string>)
    requires AllOneLine(before) && AllOneLine(after)
    ensures Flat(before + [l] + after) == before + Split(l) + after
  {
    hide Flat, Split;
    FlatAppend(before + [l], after);
    FlatAppend(before, [l]);
    FlatOneLine(before);
    FlatOneLine(after);
    FlatSingle(l);
  }

  lemma FlatSingle(l: string)
    ensures Flat([l]) == Split(l)
  {
  }

  lemma {:induction false} JoinAppend(a: seq<string>, b: seq<string>)
    requires a != [] && b != []
    ensures Join(a + b) == Join(a) + "\n" + Join(b)
  {
    if |a| == 1 {
      assert (a + b)[1..] == b;
    } else {
      assert (a + b)[1..] == a[1..] + b;
      JoinAppend(a[1..], b);
    }
  }

  lemma {:induction false} JoinOfFlat(lines: seq<string>)
    ensures Join(Flat(lines)) == Join(lines)
  {
    if lines != [] {
      JoinOfSplit(lines[0]);
      JoinOfFlat(lines[1..]);
      if |lines| > 1 {
        JoinAppend(Split(lines[0]), Flat(lines[1..]));
      } else {
        assert Flat(lines) == Split(lines[0]);
      }
    }
  }

  /** What is read back in general, whatever was written. */
  lemma LinesOfAnyText(lines: seq<string>)
    ensures Lines(Text(lines)) == if Flat(lines) == [""] then [] else Flat(lines)
  {
    JoinOfFlat(lines);
    LinesOfText(Flat(lines));
  }

  lemma {:induction false} SplitParts(l: string)
    ensures |Split(l)| == 1 <==> OneLine(l)
  {
    if OneLine(l) { SplitOneLine(l); } else { JoinOfSplit(l); }
  }

  lemma NoLines(content: string)
    ensures Lines(content) == [] <==> content == ""
  {
    JoinOfSplit(content);
  }

  /** Writing back what was read changes only a missing final newline, and a lone one. */
  lemma TextOfLines(content: string)
    ensures Text(Lines(content)) == content <==>
            content == "" || (content != "\n" && content[|content| - 1] == '\n')
  {
    if content != "" {
      JoinOfSplit(content);
      var lines := Split(content);
      var front, last := lines[..|lines| - 1], lines[|lines| - 1];
      assert lines == front + [last];
      JoinIsEmpty(lines);
      JoinIsEmpty(front);
      if last == "" {
        assert front != [];
        JoinWithEmpty(front);
      } else {
        EndsInLast(lines);
      }
    }
  }

  lemma {:induction false} EndsInLast(lines: seq<string>)
    requires lines != [] && AllOneLine(lines) && lines[|lines| - 1] != ""
    ensures Join(lines) != "" && Join(lines)[|Join(lines)| - 1] != '\n'
  {
    if |lines| == 1 {
      assert lines[0][|lines[0]| - 1] in lines[0];
    } else {
      EndsInLast(lines[1..]);
    }
  }
}
