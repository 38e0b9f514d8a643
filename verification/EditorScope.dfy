/** The script editor's verbs: edits of the lines between a scope's markers, or of a fenced block. */
module EditorScope {
  import opened Options
  import opened EditorText

  // ---- Blank space ----

  /** The characters a trim removes. */
  predicate IsSpace(c: char) {
    var n := c as int;
    || 9 <= n <= 13 || n == 0x20 || n == 0x85 || n == 0xA0 || n == 0x1680 || 0x2000 <= n <= 0x200A
    || n == 0x2028 || n == 0x2029 || n == 0x202F || n == 0x205F || n == 0x3000
  }

  /** The characters of the class \s of a regular expression. */
  predicate IsRegexSpace(c: char) {
    var n := c as int;
    n == 9 || n == 10 || n == 12 || n == 13 || n == 32
  }

  function TrimLeft(s: string): string {
    if s != "" && IsSpace(s[0]) then TrimLeft(s[1..]) else s
  }

  function TrimRight(s: string): string {
    if s != "" && IsSpace(s[|s| - 1]) then TrimRight(s[..|s| - 1]) else s
  }

  function Trim(s: string): string { TrimRight(TrimLeft(s)) }

  predicate SameLine(a: string, b: string) { Trim(a) == Trim(b) }

  // ---- Scopes ----

  /** The region between two marker lines; the whole file when `frame` is empty, everything behind
      the frame when only `closeMarker` is. */
  datatype Scope = Scope(frame: string, closeMarker: string)

  datatype Bounds = Bounds(start: nat, end: nat)

  datatype EditError = NoOpeningMarker | NoClosingMarker | BadPattern | Unreadable

  function IndexOf(lines: seq<string>, want: string, from: nat): (i: Option<nat>)
    ensures i.Some? ==> from <= i.value < |lines| && SameLine(lines[i.value], want)
    ensures forall k :: from <= k < (if i.Some? then i.value else |lines|) ==> !SameLine(lines[k], want)
    decreases |lines| - from
  {
    if from >= |lines| then None
    else if SameLine(lines[from], want) then Some(from)
    else IndexOf(lines, want, from + 1)
  }

  predicate Closes(scope: Scope, l: string) {
    scope.frame != "" && scope.closeMarker != "" && SameLine(l, scope.closeMarker)
  }

  function ScopeBounds(lines: seq<string>, scope: Scope): (r: Result<Bounds, EditError>)
    ensures r.Ok? ==> r.value.start <= r.value.end <= |lines|
  {
    if scope.frame == "" then Ok(Bounds(0, |lines|))
    else match IndexOf(lines, scope.frame, 0)
      case None => Err(NoOpeningMarker)
      case Some(open) =>
        if scope.closeMarker == "" then Ok(Bounds(open + 1, |lines|))
        else match IndexOf(lines, scope.closeMarker, open + 1)
          case None => Err(NoClosingMarker)
          case Some(close) => Ok(Bounds(open + 1, close))
  }

  function Body(lines: seq<string>, b: Bounds): seq<string>
    requires b.start <= b.end <= |lines|
  {
    lines[b.start..b.end]
  }

  /** The lines with `body` between the bounds. */
  function With(lines: seq<string>, b: Bounds, body: seq<string>): seq<string>
    requires b.start <= b.end <= |lines|
  {
    lines[..b.start] + body + lines[b.end..]
  }

  /** How many lines of a body come before one that would close the scope. */
  function Open(scope: Scope, body: seq<string>): (k: nat)
    ensures k <= |body| && (k < |body| ==> Closes(scope, body[k]))
    ensures forall i :: 0 <= i < k ==> !Closes(scope, body[i])
  {
    if body == [] || Closes(scope, body[0]) then 0 else 1 + Open(scope, body[1..])
  }

  lemma IndexIs(lines: seq<string>, want: string, from: nat, i: nat)
    requires from <= i < |lines| && SameLine(lines[i], want)
    requires forall k :: from <= k < i ==> !SameLine(lines[k], want)
    ensures IndexOf(lines, want, from) == Some(i)
  {
    hide SameLine;
    var r := IndexOf(lines, want, from);
    assert r.Some? && r.value == i;
  }

  lemma BodyStaysOpen(lines: seq<string>, scope: Scope)
    requires ScopeBounds(lines, scope).Ok?
    ensures forall l :: l in Body(lines, ScopeBounds(lines, scope).value) ==> !Closes(scope, l)
  {
    hide SameLine;
  }

  /** With a new body, a scope has its old start, and ends at the first line that closes it. */
  lemma BoundsWith(lines: seq<string>, scope: Scope, body: seq<string>)
    requires ScopeBounds(lines, scope).Ok?
    ensures var b := ScopeBounds(lines, scope).value;
            ScopeBounds(With(lines, b, body), scope) == Ok(Bounds(b.start, b.start + Open(scope, body)))
  {
    hide SameLine;
    var b := ScopeBounds(lines, scope).value;
    var lines' := With(lines, b, body);
    if scope.frame != "" {
      IndexIs(lines', scope.frame, 0, b.start - 1);
      if scope.closeMarker != "" {
        var k := Open(scope, body);
        IndexIs(lines', scope.closeMarker, b.start, b.start + k);
      }
    }
  }

  // ---- Edits of a scope's body ----

  /** The lines with the scope's body edited by f. */
  function ScopeEdit(lines: seq<string>, scope: Scope, f: seq<string> -> seq<string>): Result<seq<string>, EditError> {
    match ScopeBounds(lines, scope)
    case Err(e) => Err(e)
    case Ok(b) => Ok(With(lines, b, f(Body(lines, b))))
  }

  /** Editing twice is editing once exactly when f leaves alone what is still in scope of its result. */
  lemma EditTwice(lines: seq<string>, scope: Scope, f: seq<string> -> seq<string>)
    requires ScopeBounds(lines, scope).Ok?
    ensures var edited := ScopeEdit(lines, scope, f).value;
            var body := f(Body(lines, ScopeBounds(lines, scope).value));
            var inScope := body[..Open(scope, body)];
            ScopeEdit(edited, scope, f) == Ok(edited) <==> f(inScope) == inScope
  {
    hide ScopeBounds;
    var b := ScopeBounds(lines, scope).value;
    var body := f(Body(lines, b));
    var edited, k := With(lines, b, body), Open(scope, body);
    BoundsWith(lines, scope, body);
    var b' := Bounds(b.start, b.start + k);
    assert ScopeEdit(edited, scope, f) == Ok(With(edited, b', f(Body(edited, b'))));
    assert Body(edited, b') == body[..k];
    BodyInPlace(edited, b', f(body[..k]));
  }

  /** A new body leaves the lines as they were exactly when it is the old one. */
  lemma BodyInPlace(lines: seq<string>, b: Bounds, body: seq<string>)
    requires b.start <= b.end <= |lines|
    ensures With(lines, b, body) == lines <==> body == Body(lines, b)
  {
    var with := With(lines, b, body);
    if body == Body(lines, b) {
      assert with == lines;
    } else if |body| == |Body(lines, b)| {
      assert with[b.start..b.end] == body;
    }
  }

  function FirstMatch(lines: seq<string>, p: string -> bool, start: nat, end: nat): (i: Option<nat>)
    requires start <= end <= |lines|
    ensures i.Some? ==> start <= i.value < end && p(lines[i.value])
    ensures forall k :: start <= k < (if i.Some? then i.value else end) ==> !p(lines[k])
    decreases end - start
  {
    if start == end then None else if p(lines[start]) then Some(start) else FirstMatch(lines, p, start + 1, end)
  }

  /** Replaces the first matching line, or appends. */
  function LineBody(p: string -> bool, replacement: string): seq<string> -> seq<string> {
    (body: seq<string>) =>
      match FirstMatch(body, p, 0, |body|)
      case Some(i) => body[i := replacement]
      case None => body + [replacement]
  }

  /** Appends a line unless it is there. */
  function AddBody(line: string): seq<string> -> seq<string> {
    (body: seq<string>) => if FirstMatch(body, l => SameLine(l, line), 0, |body|).Some? then body else body + [line]
  }

  function RawBody(text: seq<string>): seq<string> -> seq<string> {
    (body: seq<string>) => text
  }

  /** Setting a line twice is setting it once exactly when the line matches the pattern it is found
      by and does not close the scope it is put in. */
  lemma LineTwice(lines: seq<string>, scope: Scope, p: string -> bool, replacement: string)
    requires ScopeBounds(lines, scope).Ok?
    ensures var f := LineBody(p, replacement); var edited := ScopeEdit(lines, scope, f).value;
            ScopeEdit(edited, scope, f) == Ok(edited) <==> p(replacement) && !Closes(scope, replacement)
  {
    hide ScopeBounds, Closes, SameLine;
    var f, b := LineBody(p, replacement), ScopeBounds(lines, scope).value;
    BodyStaysOpen(lines, scope);
    EditTwice(lines, scope, f);
    LineBodyTwice(scope, Body(lines, b), p, replacement);
  }

  lemma LineBodyTwice(scope: Scope, body: seq<string>, p: string -> bool, replacement: string)
    requires forall l :: l in body ==> !Closes(scope, l)
    ensures var f := LineBody(p, replacement); var body' := f(body); var inScope := body'[..Open(scope, body')];
            f(inScope) == inScope <==> p(replacement) && !Closes(scope, replacement)
  {
    hide Closes;
    var f := LineBody(p, replacement);
    var at := match FirstMatch(body, p, 0, |body|) case Some(i) => i case None => |body|;
    var body' := f(body);
    assert body'[at] == replacement && forall k :: 0 <= k < |body'| && k != at ==> body'[k] in body;
    assert forall k :: 0 <= k < at ==> body'[k] == body[k] && !p(body[k]);
    var k := Open(scope, body');
    var inScope := body'[..k];
    if Closes(scope, replacement) {
      assert k == at;
      assert FirstMatch(inScope, p, 0, |inScope|) == None;
    } else {
      assert k == |body'| && inScope == body';
      var again := FirstMatch(inScope, p, 0, |inScope|);
      if p(replacement) {
        assert again == Some(at);
      } else if again.Some? {
        assert f(inScope)[again.value] == replacement;
      }
    }
  }

  /** Adding a line twice is adding it once exactly when it does not close the scope it is put in. */
  lemma AddTwice(lines: seq<string>, scope: Scope, line: string)
    requires ScopeBounds(lines, scope).Ok?
    ensures var f := AddBody(line); var edited := ScopeEdit(lines, scope, f).value;
            ScopeEdit(edited, scope, f) == Ok(edited) <==> !Closes(scope, line)
  {
    hide ScopeBounds, SameLine;
    var f, b := AddBody(line), ScopeBounds(lines, scope).value;
    BodyStaysOpen(lines, scope);
    EditTwice(lines, scope, f);
    AddBodyTwice(scope, Body(lines, b), line);
  }

  lemma AddBodyTwice(scope: Scope, body: seq<string>, line: string)
    requires forall l :: l in body ==> !Closes(scope, l)
    ensures var f := AddBody(line); var body' := f(body); var inScope := body'[..Open(scope, body')];
            f(inScope) == inScope <==> !Closes(scope, line)
  {
    var f, p := AddBody(line), (l: string) => SameLine(l, line);
    var body' := f(body);
    var k := Open(scope, body');
    var inScope := body'[..k];
    if !FirstMatch(body, p, 0, |body|).Some? {
      assert body'[|body|] == line && forall i :: 0 <= i < |body| ==> body'[i] in body;
      if Closes(scope, line) {
        assert k == |body| && inScope == body;
      } else {
        assert k == |body'| && inScope == body';
      }
    } else {
      assert inScope == body by { assert k == |body|; }
      var i := FirstMatch(body, p, 0, |body|).value;
      SameCloses(scope, body[i], line);
    }
  }

  lemma SameCloses(scope: Scope, a: string, b: string)
    requires SameLine(a, b)
    ensures Closes(scope, a) <==> Closes(scope, b)
  {
  }

  /** Writing a body twice is writing it once exactly when none of its lines closes the scope. */
  lemma RawTwice(lines: seq<string>, scope: Scope, text: seq<string>)
    requires ScopeBounds(lines, scope).Ok?
    ensures var f := RawBody(text); var edited := ScopeEdit(lines, scope, f).value;
            ScopeEdit(edited, scope, f) == Ok(edited) <==> forall l :: l in text ==> !Closes(scope, l)
  {
    hide ScopeBounds, Closes;
    EditTwice(lines, scope, RawBody(text));
    var k := Open(scope, text);
    assert text == text[..k] <==> k == |text|;
    if k == |text| { assert forall l :: l in text ==> exists i :: 0 <= i < k && text[i] == l; }
  }

  /** Setting a line replaces one line in scope or adds one at the scope's end; all else is as it was. */
  lemma LineFramed(lines: seq<string>, scope: Scope, p: string -> bool, replacement: string)
    requires ScopeBounds(lines, scope).Ok?
    ensures var b := ScopeBounds(lines, scope).value;
            ScopeEdit(lines, scope, LineBody(p, replacement)) == Ok(
              match FirstMatch(lines, p, b.start, b.end)
              case Some(i) => lines[i := replacement]
              case None => lines[..b.end] + [replacement] + lines[b.end..])
  {
    hide ScopeBounds;
    var b := ScopeBounds(lines, scope).value;
    var body := Body(lines, b);
    MatchInBody(lines, b, p);
    match FirstMatch(lines, p, b.start, b.end) {
      case Some(i) =>
        assert With(lines, b, body[i - b.start := replacement]) == lines[i := replacement];
      case None =>
        assert With(lines, b, body + [replacement]) == lines[..b.end] + [replacement] + lines[b.end..];
    }
  }

  /** Writing a body puts exactly that text into the scope; the lines around it are as they were. */
  lemma RawFramed(lines: seq<string>, scope: Scope, text: seq<string>)
    requires ScopeBounds(lines, scope).Ok?
    ensures var b := ScopeBounds(lines, scope).value;
            ScopeEdit(lines, scope, RawBody(text)) == Ok(lines[..b.start] + text + lines[b.end..])
  {
    hide ScopeBounds;
  }

  /** Adding a line changes nothing if it is in scope, and otherwise puts it at the scope's end. */
  lemma AddFramed(lines: seq<string>, scope: Scope, line: string)
    requires ScopeBounds(lines, scope).Ok?
    ensures var b := ScopeBounds(lines, scope).value;
            var r := ScopeEdit(lines, scope, AddBody(line));
            if exists i :: b.start <= i < b.end && SameLine(lines[i], line) then r == Ok(lines)
            else r == Ok(lines[..b.end] + [line] + lines[b.end..]) && r != Ok(lines)
  {
    hide ScopeBounds, SameLine;
    var b, p := ScopeBounds(lines, scope).value, (l: string) => SameLine(l, line);
    var body := Body(lines, b);
    MatchInBody(lines, b, p);
    BodyInPlace(lines, b, body);
    if FirstMatch(lines, p, b.start, b.end).None? {
      BodyInPlace(lines, b, body + [line]);
      assert With(lines, b, body + [line]) == lines[..b.end] + [line] + lines[b.end..];
    }
  }

  lemma MatchInBody(lines: seq<string>, b: Bounds, p: string -> bool)
    requires b.start <= b.end <= |lines|
    ensures var i, j := FirstMatch(lines, p, b.start, b.end), FirstMatch(Body(lines, b), p, 0, b.end - b.start);
            (i.None? <==> j.None?) && (i.Some? && j.Some? ==> i.value == j.value + b.start)
  {
    var body := Body(lines, b);
    var i, j := FirstMatch(lines, p, b.start, b.end), FirstMatch(body, p, 0, |body|);
    assert forall k :: 0 <= k < |body| ==> body[k] == lines[k + b.start];
    assert i.Some? ==> body[i.value - b.start] == lines[i.value];
    assert forall k :: b.start <= k < b.end ==> lines[k] == body[k - b.start];
  }

  // ---- Directives ----

  function Render(key: string, separator: string, value: string): string {
    if value == "" then key else key + separator + value
  }

  predicate AllRegexSpace(s: string) {
    forall i :: 0 <= i < |s| ==> IsRegexSpace(s[i])
  }

  predicate StartsWith(s: string, prefix: string) {
    |prefix| <= |s| && s[..|prefix|] == prefix
  }

  /** Behind the key comes the separator, or nothing but blanks. */
  predicate AfterKey(separator: string, rest: string) {
    || AllRegexSpace(rest)
    || (var sep := Trim(separator);
        if sep == "" then rest != "" && IsRegexSpace(rest[0])
        else exists j :: 0 <= j <= |rest| && AllRegexSpace(rest[..j]) && StartsWith(rest[j..], sep))
  }

  /** The line is a directive for the key, perhaps indented. */
  predicate KeyLine(key: string, separator: string, l: string) {
    exists i :: 0 <= i <= |l| && AllRegexSpace(l[..i]) && StartsWith(l[i..], key) && AfterKey(separator, l[i + |key|..])
  }

  /** The separator's blanks are ones that \s matches: spaces and tabs, but no vertical tab, say. */
  predicate PlainSeparator(separator: string) {
    separator != "" && forall c :: c in separator && IsSpace(c) ==> IsRegexSpace(c)
  }

  lemma {:induction false} TrimLeftCut(s: string) returns (k: nat)
    ensures k <= |s| && TrimLeft(s) == s[k..] && forall i :: 0 <= i < k ==> IsSpace(s[i])
  {
    if s != "" && IsSpace(s[0]) {
      var j := TrimLeftCut(s[1..]);
      k := j + 1;
      assert forall i :: 1 <= i < k ==> s[i] == s[1..][i - 1];
    } else {
      k := 0;
    }
  }

  lemma {:induction false} TrimRightCut(s: string) returns (k: nat)
    ensures k <= |s| && TrimRight(s) == s[..k] && forall i :: k <= i < |s| ==> IsSpace(s[i])
  {
    if s != "" && IsSpace(s[|s| - 1]) {
      k := TrimRightCut(s[..|s| - 1]);
    } else {
      k := |s|;
      assert s[..k] == s;
    }
  }

  lemma TrimCut(s: string) returns (i: nat, j: nat)
    ensures i <= j <= |s| && Trim(s) == s[i..j]
    ensures forall k :: 0 <= k < i || j <= k < |s| ==> IsSpace(s[k])
  {
    i := TrimLeftCut(s);
    var n := TrimRightCut(s[i..]);
    j := i + n;
    assert s[i..][..n] == s[i..j];
    assert forall k :: j <= k < |s| ==> s[k] == s[i..][k - i];
  }

  lemma {:induction false} TrimLeftEnds(s: string)
    ensures TrimLeft(s) != "" ==> !IsSpace(TrimLeft(s)[0])
  {
    if s != "" && IsSpace(s[0]) { TrimLeftEnds(s[1..]); }
  }

  lemma {:induction false} TrimRightEnds(s: string)
    ensures TrimRight(s) != "" ==> s != "" && TrimRight(s)[0] == s[0] && !IsSpace(TrimRight(s)[|TrimRight(s)| - 1])
  {
    if s != "" && IsSpace(s[|s| - 1]) { TrimRightEnds(s[..|s| - 1]); }
  }

  lemma TrimEnds(s: string)
    ensures Trim(s) != "" ==> !IsSpace(Trim(s)[0]) && !IsSpace(Trim(s)[|Trim(s)| - 1])
  {
    hide TrimLeft, TrimRight, IsSpace;
    TrimLeftEnds(s);
    TrimRightEnds(TrimLeft(s));
  }

  /** A trimmed text starts and ends with no blank, and only blanks are trimmed from it. */
  lemma TrimExactly(s: string) returns (left: string, right: string)
    ensures s == left + Trim(s) + right
    ensures forall c :: c in left || c in right ==> IsSpace(c)
    ensures Trim(s) != "" ==> !IsSpace(Trim(s)[0]) && !IsSpace(Trim(s)[|Trim(s)| - 1])
  {
    hide Trim, IsSpace;
    var i, j := TrimCut(s);
    left, right := s[..i], s[j..];
    TrimEnds(s);
  }

  /** What counts as blank, when trimming and in a pattern. */
  lemma Blanks(c: char)
    ensures IsRegexSpace(c) <==> c in "\t\n\U{000C}\r "
    ensures IsSpace(c) <==> IsRegexSpace(c) || c in "\U{000B}\U{0085}\U{00A0}\U{1680}\U{2000}\U{2001}\U{2002}"
                            || c in "\U{2003}\U{2004}\U{2005}\U{2006}\U{2007}\U{2008}\U{2009}\U{200A}"
                            || c in "\U{2028}\U{2029}\U{202F}\U{205F}\U{3000}"
  {
  }

  /** A directive matches the pattern that it is found by. */
  lemma RenderedMatches(key: string, separator: string, value: string)
    requires PlainSeparator(separator)
    ensures KeyLine(key, separator, Render(key, separator, value))
  {
    var l := Render(key, separator, value);
    var rest := l[|key|..];
    assert l[0..] == l && StartsWith(l, key);
    assert AfterKey(separator, rest) by {
      if value != "" {
        assert rest == separator + value;
        var i, j := TrimCut(separator);
        if Trim(separator) == "" {
          assert separator[0] in separator && IsSpace(separator[0]);
        } else {
          assert forall k :: 0 <= k < i ==> rest[..i][k] == separator[k] && separator[k] in separator;
          assert rest[i..][..j - i] == separator[i..j];
          assert AllRegexSpace(rest[..i]) && StartsWith(rest[i..], Trim(separator));
        }
      }
    }
    assert AllRegexSpace(l[..0]) && l[0 + |key|..] == rest;
  }

  // ---- The file after an edit ----

  function FileAfter(content: string, r: Result<seq<string>, EditError>): string {
    match r case Ok(lines) => Text(lines) case Err(_) => content
  }

  /** The file after setting a line. */
  function SetIn(content: string, scope: Scope, p: string -> bool, l: string): string {
    FileAfter(content, ScopeEdit(Lines(content), scope, LineBody(p, l)))
  }

  function Property(content: string, scope: Scope, key: string, separator: string, value: string): string {
    SetIn(content, scope, l => KeyLine(key, separator, l), Render(key, separator, value))
  }

  /** The file after adding a line; it is not written if the line is there. */
  function AddTo(content: string, scope: Scope, line: string): string {
    var r := ScopeEdit(Lines(content), scope, AddBody(line));
    if r == Ok(Lines(content)) then content else FileAfter(content, r)
  }

  // ---- Edits of a file, twice ----

  lemma {:induction false} OpenAppend(scope: Scope, body: seq<string>, pieces: seq<string>)
    requires forall l :: l in body ==> !Closes(scope, l)
    ensures Open(scope, body + pieces) == |body| + Open(scope, pieces)
  {
    hide Closes;
    if body == [] {
      assert body + pieces == pieces;
    } else {
      assert (body + pieces)[1..] == body[1..] + pieces;
      OpenAppend(scope, body[1..], pieces);
    }
  }

  /** Of the lines that a text consists of, one that is still in scope is like the text itself. */
  predicate Settles(scope: Scope, text: string) {
    exists k :: 0 <= k < Open(scope, Split(text)) && SameLine(Split(text)[k], text)
  }

  lemma SameAsItself(l: string)
    ensures SameLine(l, l)
  {
  }

  lemma SettlesOneLine(scope: Scope, line: string)
    requires OneLine(line)
    ensures Settles(scope, line) <==> !Closes(scope, line)
  {
    hide SameLine, Closes;
    SplitOneLine(line);
    if !Closes(scope, line) {
      SameAsItself(line);
      assert SameLine(Split(line)[0], line);
    }
  }

  /** Adding a line twice leaves the file as adding it once does, if and only if the first does nothing
      or the file then has the line in scope; for one line that is when it does not close its scope. */
  lemma AddToTwice(content: string, scope: Scope, line: string)
    ensures var once := AddTo(content, scope, line);
            AddTo(once, scope, line) == once <==> once == content || Settles(scope, line)
    ensures OneLine(line) ==> (Settles(scope, line) <==> !Closes(scope, line))
  {
    hide ScopeBounds, SameLine, Closes, Settles, Lines, Text;
    if OneLine(line) { SettlesOneLine(scope, line); }
    var lines := Lines(content);
    var r := ScopeEdit(lines, scope, AddBody(line));
    if r.Ok? && r != Ok(lines) {
      var b := ScopeBounds(lines, scope).value;
      AddFramed(lines, scope, line);
      FlatAround(lines[..b.end], line, lines[b.end..]);
      LinesOfAnyText(r.value);
      if Flat(r.value) == [""] {
        NoLines(content);
        NoLines(Text(r.value));
      } else {
        AddedAgain(content, scope, line, b);
      }
    }
  }

  /** Behind a body without the line, its pieces are in scope up to the first that closes it. */
  lemma AddedBounds(lines: seq<string>, scope: Scope, line: string, b: Bounds)
    requires ScopeBounds(lines, scope) == Ok(b)
    ensures var flat := lines[..b.end] + Split(line) + lines[b.end..];
            ScopeBounds(flat, scope) == Ok(Bounds(b.start, b.end + Open(scope, Split(line))))
  {
    hide ScopeBounds, SameLine, Closes;
    var body, pieces := Body(lines, b), Split(line);
    BoundsWith(lines, scope, body + pieces);
    BodyStaysOpen(lines, scope);
    OpenAppend(scope, body, pieces);
    assert With(lines, b, body + pieces) == lines[..b.end] + pieces + lines[b.end..];
  }

  lemma FoundAgain(lines: seq<string>, pieces: seq<string>, n: nat, line: string, b: Bounds)
    requires b.start <= b.end <= |lines| && forall i :: b.start <= i < b.end ==> !SameLine(lines[i], line)
    requires n <= |pieces|
    ensures var flat := lines[..b.end] + pieces + lines[b.end..];
            (exists i :: b.start <= i < b.end + n && SameLine(flat[i], line)) <==>
            exists k :: 0 <= k < n && SameLine(pieces[k], line)
  {
    hide SameLine;
    var flat := lines[..b.end] + pieces + lines[b.end..];
    assert forall i :: b.start <= i < b.end ==> flat[i] == lines[i];
    if i :| b.start <= i < b.end + n && SameLine(flat[i], line) {
      assert flat[i] == pieces[i - b.end];
    }
    if k :| 0 <= k < n && SameLine(pieces[k], line) {
      assert flat[b.end + k] == pieces[k];
    }
  }

  /** The second time, the line is found, or added once more. */
  lemma AddedAgain(content: string, scope: Scope, line: string, b: Bounds)
    requires ScopeBounds(Lines(content), scope) == Ok(b)
    requires forall i :: b.start <= i < b.end ==> !SameLine(Lines(content)[i], line)
    requires var lines := Lines(content);
             Lines(AddTo(content, scope, line)) == lines[..b.end] + Split(line) + lines[b.end..]
    ensures var once := AddTo(content, scope, line);
            once != content && (AddTo(once, scope, line) == once <==> Settles(scope, line))
  {
    hide ScopeBounds, SameLine, Closes, Lines, Text, ScopeEdit, Flat, Split, Open, AddBody;
    var lines, once := Lines(content), AddTo(content, scope, line);
    var flat := Lines(once);
    AddedBounds(lines, scope, line, b);
    FoundAgain(lines, Split(line), Open(scope, Split(line)), line, b);
    AddFramed(flat, scope, line);
    assert |flat| > |lines|;
    if !Settles(scope, line) {
      var end := b.end + Open(scope, Split(line));
      FlatAround(flat[..end], line, flat[end..]);
      LinesOfAnyText(flat[..end] + [line] + flat[end..]);
    }
  }

  lemma TrimmedOneLine(l: string)
    requires OneLine(l)
    ensures OneLine(Trim(l))
  {
    var i, j := TrimCut(l);
  }

  /** A text of several lines is never found again, in any file: each addition adds it once more. */
  lemma AddAccumulates(content: string, scope: Scope, text: string)
    requires ScopeBounds(Lines(content), scope).Ok? && !OneLine(Trim(text))
    ensures var once := AddTo(content, scope, text); AddTo(once, scope, text) != once
  {
    hide ScopeBounds, Closes, Lines, Text, Trim, AddBody;
    forall l | OneLine(l) ensures !SameLine(l, text) { TrimmedOneLine(l); }
    assert !Settles(scope, text);
    if OneLine(text) { TrimmedOneLine(text); }
    SplitParts(text);
    var lines, b := Lines(content), ScopeBounds(Lines(content), scope).value;
    AddFramed(lines, scope, text);
    FlatAround(lines[..b.end], text, lines[b.end..]);
    LinesOfAnyText(lines[..b.end] + [text] + lines[b.end..]);
    AddToTwice(content, scope, text);
  }

  /** Setting a line puts it in the place of one line in scope, or between two. */
  lemma EditedAround(lines: seq<string>, scope: Scope, p: string -> bool, l: string) returns (at: nat, after: nat)
    requires ScopeBounds(lines, scope).Ok?
    ensures var b := ScopeBounds(lines, scope).value; b.start <= at <= after <= b.end && after <= at + 1
    ensures ScopeEdit(lines, scope, LineBody(p, l)) == Ok(lines[..at] + [l] + lines[after..])
  {
    hide ScopeBounds;
    LineFramed(lines, scope, p, l);
    var b := ScopeBounds(lines, scope).value;
    match FirstMatch(lines, p, b.start, b.end) {
      case Some(i) =>
        at, after := i, i + 1;
        assert lines[i := l] == lines[..at] + [l] + lines[after..];
      case None =>
        at, after := b.end, b.end;
    }
  }

  lemma BoundsAround(lines: seq<string>, scope: Scope, at: nat, after: nat, pieces: seq<string>)
    requires ScopeBounds(lines, scope).Ok?
    requires var b := ScopeBounds(lines, scope).value; b.start <= at <= after <= b.end
    ensures ScopeBounds(lines[..at] + pieces + lines[after..], scope).Ok?
  {
    hide ScopeBounds;
    var b := ScopeBounds(lines, scope).value;
    var body := lines[b.start..at] + pieces + lines[after..b.end];
    BoundsWith(lines, scope, body);
    assert With(lines, b, body) == lines[..at] + pieces + lines[after..];
  }

  lemma FramedStart(lines: seq<string>, scope: Scope)
    requires ScopeBounds(lines, scope).Ok? && scope.frame != ""
    ensures ScopeBounds(lines, scope).value.start >= 1
  {
  }

  /** Setting a line twice leaves the file as setting it once does, if and only if its scope is not
      found, or it is one line, matches the pattern it is found by and does not close its scope. */
  lemma SetTwice(content: string, scope: Scope, p: string -> bool, l: string)
    requires l == "" ==> p(l)
    ensures var once := SetIn(content, scope, p, l);
            SetIn(once, scope, p, l) == once <==>
            ScopeBounds(Lines(content), scope).Err? || (OneLine(l) && p(l) && !Closes(scope, l))
  {
    hide ScopeBounds, Closes, Lines, Text, LineBody, With;
    var lines := Lines(content);
    if ScopeBounds(lines, scope).Ok? {
      var at, after := EditedAround(lines, scope, p, l);
      var edited := lines[..at] + [l] + lines[after..];
      FlatAround(lines[..at], l, lines[after..]);
      LinesOfAnyText(edited);
      BoundsAround(lines, scope, at, after, Split(l));
      SplitParts(l);
      if OneLine(l) {
        SplitOneLine(l);
        SetOneLineTwice(content, scope, p, l, edited);
      } else {
        SetManyTwice(Text(edited), scope, p, l);
      }
    }
  }

  lemma SetOneLineTwice(content: string, scope: Scope, p: string -> bool, l: string, edited: seq<string>)
    requires OneLine(l) && (l == "" ==> p(l)) && ScopeBounds(Lines(content), scope).Ok?
    requires ScopeEdit(Lines(content), scope, LineBody(p, l)) == Ok(edited) && AllOneLine(edited)
    ensures SetIn(Text(edited), scope, p, l) == Text(edited) <==> p(l) && !Closes(scope, l)
  {
    hide ScopeBounds, Closes, Lines, LineBody, ScopeEdit, Text;
    var at, after := EditedAround(Lines(content), scope, p, l);
    if edited == [""] {
      assert edited[at] == l;
      if scope.frame != "" { FramedStart(Lines(content), scope); }
      BlankFile(scope, p);
    } else {
      LinesOfText(edited);
      LineTwice(Lines(content), scope, p, l);
      BoundsAround(Lines(content), scope, at, after, [l]);
      EditedOneLine(edited, scope, p, l);
      var again := ScopeEdit(edited, scope, LineBody(p, l)).value;
      LinesOfAnyText(again);
      FlatOneLine(again);
    }
  }

  /** A file with one blank line is empty once it is written. */
  lemma BlankFile(scope: Scope, p: string -> bool)
    requires scope.frame == "" && p("")
    ensures SetIn(Text([""]), scope, p, "") == Text([""]) && !Closes(scope, "")
  {
    assert Text([""]) == "" && Lines("") == [];
    assert FirstMatch([], p, 0, 0) == None;
    assert LineBody(p, "")([]) == [""];
    assert With([], Bounds(0, 0), [""]) == [""] && Body([], Bounds(0, 0)) == [];
  }

  /** What holds several lines is never found as one line: more lines come with each time. */
  lemma SetManyTwice(once: string, scope: Scope, p: string -> bool, l: string)
    requires ScopeBounds(Lines(once), scope).Ok? && |Split(l)| > 1
    ensures SetIn(once, scope, p, l) != once
  {
    hide ScopeBounds, Lines, LineBody, ScopeEdit, Text;
    var lines := Lines(once);
    var at, after := EditedAround(lines, scope, p, l);
    FlatAround(lines[..at], l, lines[after..]);
    LinesOfAnyText(lines[..at] + [l] + lines[after..]);
  }

  lemma EditedOneLine(lines: seq<string>, scope: Scope, p: string -> bool, l: string)
    requires AllOneLine(lines) && OneLine(l) && ScopeBounds(lines, scope).Ok?
    ensures ScopeEdit(lines, scope, LineBody(p, l)).Ok?
    ensures var edited := ScopeEdit(lines, scope, LineBody(p, l)).value; AllOneLine(edited) && l in edited
  {
    hide ScopeBounds;
    var at, after := EditedAround(lines, scope, p, l);
    assert (lines[..at] + [l] + lines[after..])[at] == l;
  }

  /** Setting a property twice leaves the file as setting it once does, if and only if its scope is not
      found, or the directive is one line, is found as one of its key and does not close its scope. It
      is found if the separator's blanks are ones that \s matches. */
  lemma PropertyTwice(content: string, scope: Scope, key: string, separator: string, value: string)
    ensures var once, l := Property(content, scope, key, separator, value), Render(key, separator, value);
            Property(once, scope, key, separator, value) == once <==>
            ScopeBounds(Lines(content), scope).Err? || (OneLine(l) && KeyLine(key, separator, l) && !Closes(scope, l))
    ensures PlainSeparator(separator) ==> KeyLine(key, separator, Render(key, separator, value))
  {
    hide ScopeBounds, PlainSeparator, Closes, Trim;
    var p, l := (l: string) => KeyLine(key, separator, l), Render(key, separator, value);
    if PlainSeparator(separator) { RenderedMatches(key, separator, value); }
    if l == "" {
      assert AllRegexSpace(l[..0]) && StartsWith(l[0..], key) && AfterKey(separator, l[0..]);
    }
    SetTwice(content, scope, p, l);
  }

  /** After setting a property, the first line of its key in scope is the one that was set. */
  lemma PropertyIsFirst(lines: seq<string>, scope: Scope, key: string, separator: string, value: string)
    requires PlainSeparator(separator) && ScopeBounds(lines, scope).Ok?
    requires !Closes(scope, Render(key, separator, value))
    ensures var p, l := (l: string) => KeyLine(key, separator, l), Render(key, separator, value);
            var edited := ScopeEdit(lines, scope, LineBody(p, l)).value;
            && ScopeBounds(edited, scope).Ok?
            && var b := ScopeBounds(edited, scope).value; var i := FirstMatch(edited, p, b.start, b.end);
               i.Some? && edited[i.value] == l
  {
    hide ScopeBounds, KeyLine, PlainSeparator, Closes, Open, Render;
    var p, l := (l: string) => KeyLine(key, separator, l), Render(key, separator, value);
    var b := ScopeBounds(lines, scope).value;
    var body := LineBody(p, l)(Body(lines, b));
    var edited := With(lines, b, body);
    BoundsWith(lines, scope, body);
    BodyStaysOpen(lines, scope);
    RenderedMatches(key, separator, value);
    LineInBody(scope, Body(lines, b), p, l);
    var b' := Bounds(b.start, b.start + |body|);
    assert Body(edited, b') == body;
    MatchInBody(edited, b', p);
  }

  lemma LineInBody(scope: Scope, body: seq<string>, p: string -> bool, l: string)
    requires p(l) && !Closes(scope, l) && forall k :: k in body ==> !Closes(scope, k)
    ensures var body' := LineBody(p, l)(body); var i := FirstMatch(body', p, 0, |body'|);
            Open(scope, body') == |body'| && i.Some? && body'[i.value] == l
  {
    hide Closes;
    var at := match FirstMatch(body, p, 0, |body|) case Some(i) => i case None => |body|;
    var body' := LineBody(p, l)(body);
    assert body'[at] == l && forall k :: 0 <= k < |body'| && k != at ==> body'[k] in body;
    assert forall k :: 0 <= k < at ==> body'[k] == body[k] && !p(body[k]);
    assert FirstMatch(body', p, 0, |body'|) == Some(at);
  }
}
