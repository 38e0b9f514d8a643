/** Fenced fragments: a named block of lines that can be inserted, replaced and removed again. */
module EditorFragment {
  import opened Options
  import opened EditorText
  import opened EditorScope

  /** What to put between the fences: nothing at all, a file that cannot be read, or its lines. */
  datatype Source = NoSource | Missing | Present(body: seq<string>)

  /** Where a fragment goes: the end of the scope, or behind the first line in it that matches. */
  datatype Anchor = AtEnd | BadAnchor | After(p: string -> bool)

  datatype Fence = Fence(begin: string, end: string)

  function FenceOf(comment: string, name: string): Fence {
    Fence(comment + " BEGIN ezx:" + name, comment + " END ezx:" + name)
  }

  /** The lines without the fenced block. */
  function Unfenced(lines: seq<string>, fence: Fence): seq<string> {
    match (IndexOf(lines, fence.begin, 0), IndexOf(lines, fence.end, 0))
    case (Some(b), Some(e)) => if e >= b then lines[..b] + lines[e + 1..] else lines
    case _ => lines
  }

  function InsertAt(lines: seq<string>, b: Bounds, anchor: Anchor): (at: nat)
    requires b.start <= b.end <= |lines|
    ensures b.start <= at <= b.end
  {
    match anchor
    case After(p) => (match FirstMatch(lines, p, b.start, b.end) case Some(i) => i + 1 case None => b.end)
    case _ => b.end
  }

  function Block(fence: Fence, body: seq<string>): seq<string> {
    [fence.begin] + body + [fence.end]
  }

  function Insert(lines: seq<string>, at: nat, block: seq<string>): seq<string>
    requires at <= |lines|
  {
    lines[..at] + block + lines[at..]
  }

  function FragmentEdit(lines: seq<string>, scope: Scope, fence: Fence, source: Source, anchor: Anchor):
    Result<seq<string>, EditError>
  {
    match ScopeBounds(lines, scope)
    case Err(e) => Err(e)
    case Ok(_) =>
      var cleared := Unfenced(lines, fence);
      match ScopeBounds(cleared, scope)
      case Err(e) => Err(e)
      case Ok(b) =>
        match source
        case NoSource => Ok(cleared)
        case Missing => Err(Unreadable)
        case Present(body) =>
          if anchor.BadAnchor? then Err(BadPattern)
          else Ok(Insert(cleared, InsertAt(cleared, b, anchor), Block(fence, body)))
  }

  ghost predicate NoFence(lines: seq<string>, fence: Fence) {
    forall l :: l in lines ==> !SameLine(l, fence.begin) && !SameLine(l, fence.end)
  }

  // ---- The two fence lines differ ----

  lemma {:induction false} TrimLeftAppend(a: string, b: string)
    requires b != "" && !IsSpace(b[0])
    ensures TrimLeft(a + b) == TrimLeft(a) + b
  {
    if a == "" {
      assert a + b == b;
    } else if IsSpace(a[0]) {
      TrimLeftAppend(a[1..], b);
      assert (a + b)[1..] == a[1..] + b;
    }
  }

  lemma {:induction false} TrimRightAppend(a: string, b: string)
    requires a != "" && !IsSpace(a[|a| - 1])
    ensures TrimRight(a + b) == a + TrimRight(b)
  {
    if b == "" {
      assert a + b == a;
    } else {
      assert (a + b)[|a + b| - 1] == b[|b| - 1];
      if IsSpace(b[|b| - 1]) {
        TrimRightAppend(a, b[..|b| - 1]);
        assert (a + b)[..|a + b| - 1] == a + b[..|b| - 1];
      }
    }
  }

  lemma TrimFence(comment: string, word: string, name: string)
    requires word != "" && !IsSpace(word[0])
    ensures Trim(comment + " " + word + ":" + name) == TrimLeft(comment + " ") + (word + ":") + TrimRight(name)
  {
    var mid := word + ":";
    assert comment + " " + word + ":" + name == (comment + " ") + (mid + name);
    TrimLeftAppend(comment + " ", mid + name);
    var left := TrimLeft(comment + " ") + mid;
    assert left[|left| - 1] == ':';
    assert TrimLeft(comment + " ") + (mid + name) == left + name;
    TrimRightAppend(left, name);
  }

  lemma FenceTrimmed(comment: string, name: string)
    ensures var fence, left := FenceOf(comment, name), TrimLeft(comment + " ");
            && Trim(fence.begin) == left + "BEGIN ezx:" + TrimRight(name)
            && Trim(fence.end) == left + "END ezx:" + TrimRight(name)
  {
    var fence := FenceOf(comment, name);
    assert fence.begin == comment + " " + "BEGIN ezx" + ":" + name;
    assert fence.end == comment + " " + "END ezx" + ":" + name;
    assert "BEGIN ezx" + ":" == "BEGIN ezx:" && "END ezx" + ":" == "END ezx:";
    TrimFence(comment, "BEGIN ezx", name);
    TrimFence(comment, "END ezx", name);
  }

  /** Whatever the comment prefix and the name, no line is both fences. */
  lemma FencesDiffer(comment: string, name: string)
    ensures var fence := FenceOf(comment, name); !SameLine(fence.begin, fence.end)
  {
    var fence := FenceOf(comment, name);
    FenceTrimmed(comment, name);
    assert |Trim(fence.begin)| == |Trim(fence.end)| + 2;
  }

  /** Fragments of different names have different fences, so each verb is about its own block. */
  lemma FencesOfNames(comment: string, name: string, name': string)
    ensures var fence, fence' := FenceOf(comment, name), FenceOf(comment, name');
            && (SameLine(fence.begin, fence'.begin) <==> TrimRight(name) == TrimRight(name'))
            && (SameLine(fence.end, fence'.end) <==> TrimRight(name) == TrimRight(name'))
  {
    hide FenceOf, Trim, TrimLeft, TrimRight;
    FenceTrimmed(comment, name);
    FenceTrimmed(comment, name');
    var left := TrimLeft(comment + " ");
    SamePrefix(left + "BEGIN ezx:", TrimRight(name), TrimRight(name'));
    SamePrefix(left + "END ezx:", TrimRight(name), TrimRight(name'));
  }

  lemma SamePrefix(a: string, b: string, c: string)
    ensures a + b == a + c <==> b == c
  {
    assert (a + b)[|a|..] == b && (a + c)[|a|..] == c;
  }

  /** A fragment goes right behind the first line in scope that its anchor matches, or to the end of
      the scope. */
  lemma AnchoredBehind(lines: seq<string>, b: Bounds, p: string -> bool)
    requires b.start <= b.end <= |lines|
    ensures var at := InsertAt(lines, b, After(p));
            if exists k :: b.start <= k < b.end && p(lines[k])
            then at > b.start && p(lines[at - 1]) && forall k :: b.start <= k < at - 1 ==> !p(lines[k])
            else at == b.end
    ensures InsertAt(lines, b, AtEnd) == b.end
  {
  }

  // ---- Insert and remove ----

  lemma UnfencedOfNone(lines: seq<string>, fence: Fence)
    requires NoFence(lines, fence)
    ensures Unfenced(lines, fence) == lines
  {
    hide SameLine;
  }

  ghost predicate IsFirst(lines: seq<string>, want: string, k: nat) {
    k < |lines| && SameLine(lines[k], want) && forall j :: 0 <= j < k ==> !SameLine(lines[j], want)
  }

  /** Removing a fragment removes the lines from its first begin fence to its first end fence, if the
      one is not behind the other, and nothing else. */
  lemma UnfencedExactly(lines: seq<string>, fence: Fence)
    ensures forall b: nat, e: nat :: IsFirst(lines, fence.begin, b) && IsFirst(lines, fence.end, e) && b <= e ==>
              Unfenced(lines, fence) == lines[..b] + lines[e + 1..]
    ensures (forall b: nat, e: nat :: !(IsFirst(lines, fence.begin, b) && IsFirst(lines, fence.end, e) && b <= e)) ==>
              Unfenced(lines, fence) == lines
  {
    hide SameLine;
    var first, last := IndexOf(lines, fence.begin, 0), IndexOf(lines, fence.end, 0);
    if first.Some? && last.Some? {
      assert IsFirst(lines, fence.begin, first.value) && IsFirst(lines, fence.end, last.value);
    }
  }

  /** When a fragment verb fails: the scope comes first, before and after the old block is removed; then
      the source, then the anchor. */
  lemma FragmentFails(lines: seq<string>, scope: Scope, fence: Fence, source: Source, anchor: Anchor)
    ensures var r, cleared := FragmentEdit(lines, scope, fence, source, anchor), Unfenced(lines, fence);
            var found := ScopeBounds(lines, scope).Ok? && ScopeBounds(cleared, scope).Ok?;
            && (r.Ok? <==> found && (source.NoSource? || (source.Present? && !anchor.BadAnchor?)))
            && (r == Err(Unreadable) <==> found && source.Missing?)
            && (r == Err(BadPattern) <==> found && source.Present? && anchor.BadAnchor?)
  {
    hide Unfenced;
  }

  lemma InsertedParts(lines: seq<string>, at: nat, block: seq<string>)
    requires at <= |lines|
    ensures var inserted, last := Insert(lines, at, block), at + |block|;
            |inserted| == |lines| + |block| && inserted[..at] == lines[..at]
            && inserted[at..last] == block && inserted[last..] == lines[at..]
  {
  }

  lemma UnfencedOfInserted(lines: seq<string>, fence: Fence, body: seq<string>, at: nat)
    requires !SameLine(fence.begin, fence.end) && NoFence(lines, fence) && NoFence(body, fence) && at <= |lines|
    ensures Unfenced(Insert(lines, at, Block(fence, body)), fence) == lines
  {
    hide Trim, Insert;
    var fenced := Insert(lines, at, Block(fence, body));
    var last := at + |body| + 1;
    InsertedParts(lines, at, Block(fence, body));
    assert forall k :: 0 <= k < at ==> fenced[k] == lines[..at][k];
    assert forall k :: at <= k <= last ==> fenced[k] == Block(fence, body)[k - at];
    IndexIs(fenced, fence.begin, 0, at);
    IndexIs(fenced, fence.end, 0, last);
  }

  /** Lines put into a scope leave it a scope. */
  lemma InsertedKeepsScope(lines: seq<string>, scope: Scope, at: nat, block: seq<string>)
    requires ScopeBounds(lines, scope).Ok?
    requires var b := ScopeBounds(lines, scope).value; b.start <= at <= b.end
    ensures ScopeBounds(Insert(lines, at, block), scope).Ok?
  {
    hide ScopeBounds;
    var b := ScopeBounds(lines, scope).value;
    var body := lines[b.start..at] + block + lines[at..b.end];
    BoundsWith(lines, scope, body);
    assert With(lines, b, body) == Insert(lines, at, block);
  }

  /** Whatever block a fragment had before, removing it gives the lines without any; inserting
      another body under the same name is as if the first one had never been there. */
  lemma FragmentUndone(lines: seq<string>, scope: Scope, comment: string, name: string,
                       source: Source, anchor: Anchor, source': Source, anchor': Anchor)
    requires var fence := FenceOf(comment, name);
             NoFence(Unfenced(lines, fence), fence) && (source.Present? ==> NoFence(source.body, fence))
    requires FragmentEdit(lines, scope, FenceOf(comment, name), source, anchor).Ok?
    ensures var fence := FenceOf(comment, name); var fenced := FragmentEdit(lines, scope, fence, source, anchor).value;
            && FragmentEdit(fenced, scope, fence, NoSource, anchor') == Ok(Unfenced(lines, fence))
            && FragmentEdit(fenced, scope, fence, source', anchor')
               == FragmentEdit(lines, scope, fence, source', anchor')
  {
    hide ScopeBounds, SameLine, Unfenced, InsertAt, FenceOf, NoFence;
    var fence := FenceOf(comment, name);
    FencesDiffer(comment, name);
    var cleared := Unfenced(lines, fence);
    UnfencedOfNone(cleared, fence);
    var b := ScopeBounds(cleared, scope).value;
    if source.Present? {
      var at := InsertAt(cleared, b, anchor);
      UnfencedOfInserted(cleared, fence, source.body, at);
      InsertedKeepsScope(cleared, scope, at, Block(fence, source.body));
    }
  }

  lemma UnfencedOneLine(lines: seq<string>, fence: Fence)
    requires AllOneLine(lines)
    ensures AllOneLine(Unfenced(lines, fence))
  {
    hide SameLine;
  }

  /** ... and in the file itself: inserting a fragment a second time changes nothing, whether or not
      the file had the block before the first. */
  lemma FragmentTwice(content: string, scope: Scope, comment: string, name: string, body: seq<string>, anchor: Anchor)
    requires OneLine(comment) && OneLine(name) && AllOneLine(body)
    requires var fence := FenceOf(comment, name);
             NoFence(Unfenced(Lines(content), fence), fence) && NoFence(body, fence)
    ensures var fence := FenceOf(comment, name);
            var once := FileAfter(content, FragmentEdit(Lines(content), scope, fence, Present(body), anchor));
            FileAfter(once, FragmentEdit(Lines(once), scope, fence, Present(body), anchor)) == once
  {
    hide SameLine, ScopeBounds, InsertAt, Unfenced, NoFence;
    var fence, lines := FenceOf(comment, name), Lines(content);
    var r := FragmentEdit(lines, scope, fence, Present(body), anchor);
    if r.Ok? {
      FragmentUndone(lines, scope, comment, name, Present(body), anchor, Present(body), anchor);
      FragmentOneLine(lines, scope, fence, body, anchor);
      LinesOfText(r.value);
    }
  }

  /** Inserting a fragment into a file and removing it again leaves the file's lines without the
      block, unless all they are is one blank line, which is no line at all when written. */
  lemma FragmentGone(content: string, scope: Scope, comment: string, name: string, body: seq<string>,
                     anchor: Anchor, anchor': Anchor)
    requires OneLine(comment) && OneLine(name) && AllOneLine(body)
    requires var fence := FenceOf(comment, name);
             NoFence(Unfenced(Lines(content), fence), fence) && NoFence(body, fence)
    requires FragmentEdit(Lines(content), scope, FenceOf(comment, name), Present(body), anchor).Ok?
    ensures var fence, lines := FenceOf(comment, name), Lines(content);
            var fenced := FileAfter(content, FragmentEdit(lines, scope, fence, Present(body), anchor));
            var gone := FileAfter(fenced, FragmentEdit(Lines(fenced), scope, fence, NoSource, anchor'));
            var cleared := Unfenced(lines, fence);
            && gone == Text(cleared) && (Lines(gone) == cleared <==> cleared != [""])
            && (NoFence(lines, fence) ==> cleared == lines)
  {
    hide SameLine, ScopeBounds, InsertAt, Unfenced, NoFence;
    var fence, lines := FenceOf(comment, name), Lines(content);
    var r := FragmentEdit(lines, scope, fence, Present(body), anchor);
    FragmentUndone(lines, scope, comment, name, Present(body), anchor, NoSource, anchor');
    FragmentOneLine(lines, scope, fence, body, anchor);
    LinesOfText(r.value);
    UnfencedOneLine(lines, fence);
    LinesOfText(Unfenced(lines, fence));
    if NoFence(lines, fence) { UnfencedOfNone(lines, fence); }
  }

  lemma FragmentOneLine(lines: seq<string>, scope: Scope, fence: Fence, body: seq<string>, anchor: Anchor)
    requires AllOneLine(lines) && AllOneLine(body) && OneLine(fence.begin) && OneLine(fence.end)
    requires FragmentEdit(lines, scope, fence, Present(body), anchor).Ok?
    ensures var edited := FragmentEdit(lines, scope, fence, Present(body), anchor).value;
            AllOneLine(edited) && edited != [""]
  {
    hide ScopeBounds, Unfenced, InsertAt;
    var cleared := Unfenced(lines, fence);
    UnfencedOneLine(lines, fence);
    InsertedOneLine(cleared, InsertAt(cleared, ScopeBounds(cleared, scope).value, anchor), Block(fence, body));
  }

  lemma InsertedOneLine(lines: seq<string>, at: nat, block: seq<string>)
    requires AllOneLine(lines) && AllOneLine(block) && |block| >= 2 && at <= |lines|
    ensures AllOneLine(Insert(lines, at, block)) && Insert(lines, at, block) != [""]
  {
  }

  lemma InsertsApart(lines: seq<string>, fence: Fence, body: seq<string>, at: nat, at': nat)
    requires at < at' <= |lines| && NoFence(lines, fence)
    ensures Insert(lines, at, Block(fence, body)) != Insert(lines, at', Block(fence, body))
  {
    hide Trim;
    assert Insert(lines, at, Block(fence, body))[at] == fence.begin;
    assert Insert(lines, at', Block(fence, body))[at] == lines[at];
    assert lines[at] in lines;
  }

  /** Inserting a fragment again replaces its block in place if and only if the block is where the
      anchor puts it: otherwise it moves there. */
  lemma FragmentStaysExactly(lines: seq<string>, scope: Scope, comment: string, name: string,
                             body: seq<string>, at: nat, body': seq<string>, anchor: Anchor)
    requires var fence := FenceOf(comment, name); NoFence(lines, fence) && NoFence(body, fence)
    requires at <= |lines| && !anchor.BadAnchor? && ScopeBounds(lines, scope).Ok?
    requires ScopeBounds(Insert(lines, at, Block(FenceOf(comment, name), body)), scope).Ok?
    ensures var fence := FenceOf(comment, name);
            FragmentEdit(Insert(lines, at, Block(fence, body)), scope, fence, Present(body'), anchor)
            == Ok(Insert(lines, at, Block(fence, body')))
            <==> InsertAt(lines, ScopeBounds(lines, scope).value, anchor) == at
  {
    hide ScopeBounds, SameLine, Unfenced, InsertAt, FenceOf, NoFence;
    var fence := FenceOf(comment, name);
    FencesDiffer(comment, name);
    UnfencedOfInserted(lines, fence, body, at);
    var to := InsertAt(lines, ScopeBounds(lines, scope).value, anchor);
    if to < at {
      InsertsApart(lines, fence, body', to, at);
    } else if at < to {
      InsertsApart(lines, fence, body', at, to);
    }
  }

  /** For instance, a block with a line behind it moves to the end of the file. */
  lemma FragmentMoves(l: string)
    requires var fence := FenceOf("#", "x"); !SameLine(l, fence.begin) && !SameLine(l, fence.end)
    ensures var fence := FenceOf("#", "x");
            FragmentEdit([fence.begin, fence.end, l], Scope("", ""), fence, Present([]), AtEnd)
            == Ok([l, fence.begin, fence.end])
  {
    hide SameLine, FenceOf;
    var fence := FenceOf("#", "x");
    FencesDiffer("#", "x");
    var lines := [fence.begin, fence.end, l];
    assert Insert([l], 0, Block(fence, [])) == lines;
    UnfencedOfInserted([l], fence, [], 0);
    assert Insert([l], 1, Block(fence, [])) == [l, fence.begin, fence.end];
  }
}
