/** The editor handle that scripts hold: a file, its separator and comment prefix, and a scope in it.
    Each verb reads the file, edits its lines and writes it back. */
module FileEditor {
  import opened Options
  import opened EditorText
  import opened EditorScope
  import opened EditorFragment

  class TextFile {
    var content: string

    constructor (content: string)
      ensures this.content == content
    {
      this.content := content;
    }
  }

  /** The lines of a text, without trailing blank ones. */
  function TextLines(text: string): seq<string> {
    if text == "" then []
    else if text[|text| - 1] == '\n' then TextLines(text[..|text| - 1])
    else Split(text)
  }

  /** A text is its lines, joined, and some newlines. */
  lemma {:induction false} TextOfItsLines(text: string) returns (newlines: string)
    ensures (forall i :: 0 <= i < |newlines| ==> newlines[i] == '\n') && text == Join(TextLines(text)) + newlines
    ensures TextLines(text) == [] <==> text == newlines
    ensures AllOneLine(TextLines(text)) && (TextLines(text) != [] ==> TextLines(text)[|TextLines(text)| - 1] != "")
  {
    newlines := "";
    if text != "" && text[|text| - 1] == '\n' {
      var before := TextOfItsLines(text[..|text| - 1]);
      newlines := before + "\n";
      assert text == text[..|text| - 1] + "\n";
    } else if text != "" {
      JoinOfSplit(text);
      LastOfSplit(text);
    }
  }

  lemma {:induction false} LastOfSplit(text: string)
    requires text != "" && text[|text| - 1] != '\n'
    ensures Split(text)[|Split(text)| - 1] != ""
  {
    if |text| > 1 { LastOfSplit(text[1..]); }
  }

  class Editor {
    const file: TextFile
    const separator: string
    const comment: string
    const scope: Scope

    constructor (file: TextFile, separator: string, comment: string, scope: Scope)
      ensures this.file == file && this.scope == scope
      ensures this.separator == if separator == "" then " " else separator
      ensures this.comment == if comment == "" then "#" else comment
    {
      this.file := file;
      this.separator := if separator == "" then " " else separator;
      this.comment := if comment == "" then "#" else comment;
      this.scope := scope;
    }

    method WriteLines(lines: seq<string>)
      modifies file
      ensures file.content == Text(lines)
    {
      file.content := Join(lines);
      if file.content != "" { file.content := file.content + "\n"; }
    }

    static method IndexOfLineFrom(lines: seq<string>, want: string, from: nat) returns (r: Option<nat>)
      ensures r == IndexOf(lines, want, from)
    {
      hide SameLine;
      var i := from;
      while i < |lines|
        invariant from <= i && (from <= |lines| ==> i <= |lines|)
        invariant IndexOf(lines, want, from) == IndexOf(lines, want, i)
      {
        if SameLine(lines[i], want) { return Some(i); }
        i := i + 1;
      }
      return None;
    }

    method FindBounds(lines: seq<string>) returns (r: Result<Bounds, EditError>)
      ensures r == ScopeBounds(lines, scope)
    {
      if scope.frame == "" { return Ok(Bounds(0, |lines|)); }
      var open := IndexOfLineFrom(lines, scope.frame, 0);
      if open.None? { return Err(NoOpeningMarker); }
      var start, end := open.value + 1, |lines|;
      if scope.closeMarker != "" {
        var close := IndexOfLineFrom(lines, scope.closeMarker, start);
        if close.None? { return Err(NoClosingMarker); }
        end := close.value;
      }
      return Ok(Bounds(start, end));
    }

    static method FindMatch(lines: seq<string>, p: string -> bool, start: nat, end: nat) returns (r: Option<nat>)
      requires start <= end <= |lines|
      ensures r == FirstMatch(lines, p, start, end)
    {
      for i := start to end
        invariant FirstMatch(lines, p, start, end) == FirstMatch(lines, p, i, end)
      {
        if p(lines[i]) { return Some(i); }
      }
      return None;
    }

    method AppendInScope(lines: seq<string>, end: nat, line: string)
      requires end <= |lines|
      modifies file
      ensures file.content == Text(lines[..end] + [line] + lines[end..])
    {
      var out := lines[..end];
      out := out + [line];
      out := out + lines[end..];
      WriteLines(out);
    }

    /** Replaces the first line in scope that matches, or appends the replacement to the scope. */
    method Line(p: string -> bool, replacement: string) returns (err: Option<EditError>)
      modifies file
      ensures var r := ScopeEdit(Lines(old(file.content)), scope, LineBody(p, replacement));
              && file.content == FileAfter(old(file.content), r)
              && err == if r.Ok? then None else Some(r.error)
    {
      hide ScopeBounds;
      var lines := Lines(file.content);
      var r := FindBounds(lines);
      if r.Err? { return Some(r.error); }
      var b := r.value;
      LineFramed(lines, scope, p, replacement);
      var i := FindMatch(lines, p, b.start, b.end);
      if i.Some? {
        lines := lines[i.value := replacement];
        WriteLines(lines);
      } else {
        AppendInScope(lines, b.end, replacement);
      }
      return None;
    }

    /** Sets a directive in place, or appends it to the scope. */
    method SetProperty(key: string, value: string) returns (err: Option<EditError>)
      modifies file
      ensures file.content == Property(old(file.content), scope, key, separator, value)
      ensures err.None? <==> ScopeBounds(Lines(old(file.content)), scope).Ok?
    {
      hide ScopeBounds, KeyLine;
      err := Line(l => KeyLine(key, separator, l), Render(key, separator, value));
    }

    /** Appends a directive to the scope unless the same line is there already. */
    method Add(key: string, value: string) returns (err: Option<EditError>)
      modifies file
      ensures file.content == AddTo(old(file.content), scope, Render(key, separator, value))
      ensures err.None? <==> ScopeBounds(Lines(old(file.content)), scope).Ok?
    {
      hide ScopeBounds, SameLine;
      var line, lines := Render(key, separator, value), Lines(file.content);
      var r := FindBounds(lines);
      if r.Err? { return Some(r.error); }
      var b := r.value;
      AddFramed(lines, scope, line);
      var i := FindMatch(lines, l => SameLine(l, line), b.start, b.end);
      if i.Some? { return None; }
      AppendInScope(lines, b.end, line);
      return None;
    }

    /** Replaces the scope's body with a text. */
    method Raw(text: string) returns (err: Option<EditError>)
      modifies file
      ensures var r := ScopeEdit(Lines(old(file.content)), scope, RawBody(TextLines(text)));
              && file.content == FileAfter(old(file.content), r)
              && err == if r.Ok? then None else Some(r.error)
    {
      hide ScopeBounds;
      var lines := Lines(file.content);
      var r := FindBounds(lines);
      if r.Err? { return Some(r.error); }
      var out := lines[..r.value.start];
      out := out + TextLines(text);
      out := out + lines[r.value.end..];
      WriteLines(out);
      return None;
    }

    static method ClearFence(lines: seq<string>, fence: Fence) returns (cleared: seq<string>)
      ensures cleared == Unfenced(lines, fence)
    {
      var b := IndexOfLineFrom(lines, fence.begin, 0);
      var e := IndexOfLineFrom(lines, fence.end, 0);
      if b.Some? && e.Some? && e.value >= b.value {
        return lines[..b.value] + lines[e.value + 1..];
      }
      return lines;
    }

    static method FindAnchor(lines: seq<string>, b: Bounds, anchor: Anchor) returns (at: nat)
      requires b.start <= b.end <= |lines|
      ensures at == InsertAt(lines, b, anchor)
    {
      at := b.end;
      if anchor.After? {
        var i := FindMatch(lines, anchor.p, b.start, b.end);
        if i.Some? { at := i.value + 1; }
      }
    }

    /** Inserts, replaces or removes the fragment of a name. */
    method Fragment(name: string, source: Source, anchor: Anchor) returns (err: Option<EditError>)
      modifies file
      ensures var r := FragmentEdit(Lines(old(file.content)), scope, FenceOf(comment, name), source, anchor);
              && file.content == FileAfter(old(file.content), r)
              && err == if r.Ok? then None else Some(r.error)
    {
      hide ScopeBounds, FenceOf, Unfenced, InsertAt, Lines, Text;
      var fence, lines := FenceOf(comment, name), Lines(file.content);
      var r := FindBounds(lines);
      if r.Err? { return Some(r.error); }
      lines := ClearFence(lines, fence);
      r := FindBounds(lines);
      if r.Err? { return Some(r.error); }
      if source.NoSource? {
        WriteLines(lines);
        return None;
      }
      if source.Missing? { return Some(Unreadable); }
      var block := [fence.begin];
      block := block + source.body;
      block := block + [fence.end];
      if anchor.BadAnchor? { return Some(BadPattern); }
      var at := FindAnchor(lines, r.value, anchor);
      var out := lines[..at];
      out := out + block;
      out := out + lines[at..];
      WriteLines(out);
      return None;
    }
  }
}
