/** Which lines are directives of a key, and what setting one leaves alone. */
module EditorProperty {
  import opened Options
  import opened EditorText
  import opened EditorScope

  // ---- Words ----

  predicate NoBlank(s: string) {
    forall i :: 0 <= i < |s| ==> !IsRegexSpace(s[i])
  }

  /** The text without the blanks before it. */
  function SkipBlank(s: string): string {
    if s != "" && IsRegexSpace(s[0]) then SkipBlank(s[1..]) else s
  }

  /** The text up to its first blank. */
  function Word(s: string): string {
    if s != "" && !IsRegexSpace(s[0]) then [s[0]] + Word(s[1..]) else ""
  }

  function FirstWord(l: string): string { Word(SkipBlank(l)) }

  lemma {:induction false} SkipIs(s: string, i: nat)
    requires i <= |s| && AllRegexSpace(s[..i]) && (i < |s| ==> !IsRegexSpace(s[i]))
    ensures SkipBlank(s) == s[i..]
  {
    if i > 0 {
      assert IsRegexSpace(s[..i][0]);
      assert s[1..][..i - 1] == s[..i][1..];
      SkipIs(s[1..], i - 1);
    }
  }

  lemma {:induction false} SkipCut(s: string) returns (i: nat)
    ensures i <= |s| && AllRegexSpace(s[..i]) && (i < |s| ==> !IsRegexSpace(s[i])) && SkipBlank(s) == s[i..]
  {
    i := 0;
    if s != "" && IsRegexSpace(s[0]) {
      var j := SkipCut(s[1..]);
      i := j + 1;
      assert forall k :: 1 <= k < i ==> s[..i][k] == s[1..][..j][k - 1];
    }
  }

  lemma StartsLater(s: string, key: string)
    requires s != "" && key != "" && s[0] == key[0]
    ensures StartsWith(s, key) <==> StartsWith(s[1..], key[1..])
    ensures forall w :: w == key[1..] <==> [s[0]] + w == key
  {
    if |s| >= |key| {
      assert s[..|key|] == [s[0]] + s[1..][..|key| - 1];
      assert key == [key[0]] + key[1..];
      assert s[1..][..|key| - 1] == s[..|key|][1..];
    }
    forall w ensures w == key[1..] <==> [s[0]] + w == key {
      assert key == [key[0]] + key[1..];
      assert ([s[0]] + w)[1..] == w;
    }
  }

  lemma {:induction false} WordIs(s: string, key: string)
    requires NoBlank(key)
    ensures Word(s) == key <==> StartsWith(s, key) && (|s| > |key| ==> IsRegexSpace(s[|key|]))
  {
    if key == "" {
      assert StartsWith(s, key);
    } else if s != "" && s[0] == key[0] {
      WordIs(s[1..], key[1..]);
      StartsLater(s, key);
    } else {
      assert s != "" && |s| >= |key| ==> s[..|key|][0] == s[0];
    }
  }

  /** With a separator of blanks, a line is a directive of the key exactly if its first word is the
      key: `User` does not find `UserDir`. */
  lemma FoundByWord(key: string, separator: string, l: string)
    requires key != "" && NoBlank(key) && Trim(separator) == ""
    ensures KeyLine(key, separator, l) <==> FirstWord(l) == key
  {
    hide Trim;
    if KeyLine(key, separator, l) {
      var i :| 0 <= i <= |l| && AllRegexSpace(l[..i]) && StartsWith(l[i..], key) && AfterKey(separator, l[i + |key|..]);
      assert l[i..][..|key|][0] == key[0];
      SkipIs(l, i);
      WordIs(l[i..], key);
      assert |l[i..]| > |key| ==> l[i..][|key|] == l[i + |key|..][0];
    }
    if FirstWord(l) == key {
      var i := SkipCut(l);
      WordIs(l[i..], key);
      var rest := l[i + |key|..];
      assert rest != "" ==> l[i..][|key|] == rest[0];
      assert AfterKey(separator, rest);
    }
  }

  // ---- Signs ----

  /** The text before the first occurrence of a character, or all of it. */
  function Before(l: string, c: char): (head: string)
    ensures |head| <= |l|
  {
    if l == "" || l[0] == c then "" else [l[0]] + Before(l[1..], c)
  }

  function DropBlank(s: string): string {
    if s != "" && IsRegexSpace(s[|s| - 1]) then DropBlank(s[..|s| - 1]) else s
  }

  /** The text without the blanks around it. */
  function Bare(s: string): string { DropBlank(SkipBlank(s)) }

  predicate BareEnds(key: string) {
    key != "" && !IsRegexSpace(key[0]) && !IsRegexSpace(key[|key| - 1])
  }

  lemma {:induction false} BeforeIs(l: string, c: char, n: nat)
    requires n <= |l| && c !in l[..n] && (n < |l| ==> l[n] == c)
    ensures Before(l, c) == l[..n]
  {
    if n > 0 {
      assert l[..n][0] == l[0];
      assert l[1..][..n - 1] == l[..n][1..];
      BeforeIs(l[1..], c, n - 1);
      assert l[..n] == [l[0]] + l[1..][..n - 1];
    }
  }

  lemma {:induction false} BeforeCut(l: string, c: char) returns (n: nat)
    ensures n <= |l| && c !in l[..n] && (n < |l| ==> l[n] == c) && Before(l, c) == l[..n]
  {
    n := 0;
    if l != "" && l[0] != c {
      var m := BeforeCut(l[1..], c);
      n := m + 1;
      assert l[..n] == [l[0]] + l[1..][..m];
    }
  }

  lemma {:induction false} DropIs(s: string, n: nat)
    requires n <= |s| && AllRegexSpace(s[n..]) && (n > 0 ==> !IsRegexSpace(s[n - 1]))
    ensures DropBlank(s) == s[..n]
  {
    if n < |s| {
      assert IsRegexSpace(s[n..][|s| - n - 1]);
      assert forall k :: 0 <= k < |s| - n - 1 ==> s[..|s| - 1][n..][k] == s[n..][k];
      DropIs(s[..|s| - 1], n);
    } else {
      assert s[..n] == s;
    }
  }

  lemma {:induction false} DropCut(s: string) returns (n: nat)
    ensures n <= |s| && AllRegexSpace(s[n..]) && (n > 0 ==> !IsRegexSpace(s[n - 1])) && DropBlank(s) == s[..n]
  {
    n := |s|;
    if s != "" && IsRegexSpace(s[|s| - 1]) {
      n := DropCut(s[..|s| - 1]);
      assert forall k :: 0 <= k < |s| - n - 1 ==> s[n..][k] == s[..|s| - 1][n..][k];
    } else {
      assert s[..n] == s;
    }
  }

  /** The key starts at i, and there are only blanks around it. */
  predicate BareAt(s: string, key: string, i: nat) {
    i + |key| <= |s| && AllRegexSpace(s[..i]) && s[i..i + |key|] == key && AllRegexSpace(s[i + |key|..])
  }

  lemma BareIs(s: string, key: string)
    requires BareEnds(key)
    ensures Bare(s) == key <==> exists i: nat :: BareAt(s, key, i)
  {
    if i: nat :| BareAt(s, key, i) {
      assert s[i..i + |key|][0] == key[0] && s[i..i + |key|][|key| - 1] == key[|key| - 1];
      SkipIs(s, i);
      assert s[i..][|key|..] == s[i + |key|..] && s[i..][..|key|] == key;
      DropIs(s[i..], |key|);
    }
    if Bare(s) == key {
      var i := SkipCut(s);
      var n := DropCut(s[i..]);
      assert s[i..][..n] == s[i..i + n] && s[i..][n..] == s[i + n..];
      assert BareAt(s, key, i);
    }
  }

  /** With a separator that has a sign, a line is a directive of the key exactly if the key is all
      there is, but for blanks, before the sign, or in a line without it. */
  lemma FoundBySign(key: string, separator: string, l: string)
    requires Trim(separator) != "" && BareEnds(key) && Trim(separator)[0] !in key
    ensures var sign := Trim(separator); var head := Before(l, sign[0]);
            KeyLine(key, separator, l) <==> Bare(head) == key && (head == l || StartsWith(l[|head|..], sign))
  {
    hide Trim;
    var sign := Trim(separator);
    SignIsNoBlank(separator);
    if KeyLine(key, separator, l) {
      var i :| 0 <= i <= |l| && AllRegexSpace(l[..i]) && StartsWith(l[i..], key) && AfterKey(separator, l[i + |key|..]);
      var n := KeyEnd(key, separator, l, i);
      HeadIs(key, l, i, n, sign[0]);
      BareIs(l[..n], key);
    }
    var head := Before(l, sign[0]);
    if Bare(head) == key && (head == l || StartsWith(l[|head|..], sign)) {
      hide Bare, KeyLine;
      var n := BeforeCut(l, sign[0]);
      BareIs(head, key);
      var i: nat :| BareAt(head, key, i);
      KeyFound(key, separator, l, n, i);
    }
  }

  lemma SignIsNoBlank(separator: string)
    requires Trim(separator) != ""
    ensures !IsRegexSpace(Trim(separator)[0])
  {
    hide Trim;
    var left, right := TrimExactly(separator);
  }

  /** Where the sign behind the key starts, or the line ends. */
  lemma KeyEnd(key: string, separator: string, l: string, i: nat) returns (n: nat)
    requires Trim(separator) != "" && i + |key| <= |l| && AfterKey(separator, l[i + |key|..])
    ensures i + |key| <= n <= |l| && AllRegexSpace(l[i + |key|..n])
    ensures n == |l| || StartsWith(l[n..], Trim(separator))
  {
    hide Trim;
    var rest := l[i + |key|..];
    if AllRegexSpace(rest) {
      n := |l|;
      assert l[i + |key|..n] == rest;
    } else {
      var j :| 0 <= j <= |rest| && AllRegexSpace(rest[..j]) && StartsWith(rest[j..], Trim(separator));
      n := i + |key| + j;
      assert l[i + |key|..n] == rest[..j] && l[n..] == rest[j..];
    }
  }

  lemma HeadIs(key: string, l: string, i: nat, n: nat, c: char)
    requires !IsRegexSpace(c) && c !in key && BareEnds(key)
    requires i + |key| <= n <= |l| && AllRegexSpace(l[..i]) && StartsWith(l[i..], key) && AllRegexSpace(l[i + |key|..n])
    requires n == |l| || l[n] == c
    ensures Before(l, c) == l[..n] && BareAt(l[..n], key, i)
  {
    var head := l[..n];
    assert head[..i] == l[..i] && head[i..i + |key|] == l[i..][..|key|] && head[i + |key|..] == l[i + |key|..n];
    forall k | 0 <= k < n ensures head[k] != c {
      assert if k < i then head[k] == head[..i][k]
             else if k < i + |key| then head[k] == head[i..i + |key|][k - i]
             else head[k] == head[i + |key|..][k - i - |key|];
    }
    BeforeIs(l, c, n);
  }

  lemma KeyFound(key: string, separator: string, l: string, n: nat, i: nat)
    requires n <= |l| && BareAt(l[..n], key, i) && Trim(separator) != ""
    requires n == |l| || StartsWith(l[n..], Trim(separator))
    ensures KeyLine(key, separator, l)
  {
    hide Trim;
    var head, rest := l[..n], l[i + |key|..];
    assert head[..i] == l[..i] && head[i..i + |key|] == l[i..][..|key|];
    assert head[i + |key|..] == rest[..n - i - |key|];
    assert AfterKey(separator, rest) by {
      if n == |l| {
        assert rest[..n - i - |key|] == rest;
      } else {
        assert rest[n - i - |key|..] == l[n..];
      }
    }
  }

  // ---- What setting a property leaves alone ----

  /** Every line that is not a directive of the key, or is out of scope, is still there: where it was,
      or one further down if the directive was put in before it. */
  lemma PropertyFramed(lines: seq<string>, scope: Scope, key: string, separator: string, value: string, k: nat)
    requires ScopeBounds(lines, scope).Ok? && k < |lines|
    requires var b := ScopeBounds(lines, scope).value; !(b.start <= k < b.end) || !KeyLine(key, separator, lines[k])
    ensures var b := ScopeBounds(lines, scope).value;
            var edited := ScopeEdit(lines, scope,
                                    LineBody(l => KeyLine(key, separator, l), Render(key, separator, value))).value;
            k < |edited| <= |lines| + 1
            && (edited[k] == lines[k] || (k >= b.end && k + 1 < |edited| && edited[k + 1] == lines[k]))
  {
    hide ScopeBounds, KeyLine;
    var p := (l: string) => KeyLine(key, separator, l);
    LineFramed(lines, scope, p, Render(key, separator, value));
  }

  /** A directive says what it is set to: its key, and the value behind the separator. */
  lemma RenderedReads(key: string, separator: string, value: string)
    ensures var l := Render(key, separator, value);
            && StartsWith(l, key)
            && (value == "" ==> l == key)
            && (value != "" ==> |l| == |key| + |separator| + |value| && l[|l| - |value|..] == value
                                && l[|key|..|l| - |value|] == separator)
  {
    var l := Render(key, separator, value);
    assert l[..|key|] == key;
  }

  /** After setting a property, its first directive in the scope of the file says what was set. */
  lemma PropertySet(content: string, scope: Scope, key: string, separator: string, value: string)
    requires PlainSeparator(separator) && key != "" && ScopeBounds(Lines(content), scope).Ok?
    requires OneLine(key + separator + value) && !Closes(scope, Render(key, separator, value))
    ensures var lines := Lines(Property(content, scope, key, separator, value));
            var directive := if value == "" then key else key + separator + value;
            && ScopeBounds(lines, scope).Ok?
            && var b := ScopeBounds(lines, scope).value;
               var i := FirstMatch(lines, l => KeyLine(key, separator, l), b.start, b.end);
               i.Some? && lines[i.value] == directive
  {
    hide ScopeBounds, KeyLine, PlainSeparator, Closes, Lines, Text, LineBody, ScopeEdit;
    var p, l := (l: string) => KeyLine(key, separator, l), Render(key, separator, value);
    assert OneLine(l) by {
      var all := key + separator + value;
      assert forall k :: 0 <= k < |key| ==> all[k] == key[k];
    }
    PropertyIsFirst(Lines(content), scope, key, separator, value);
    EditedOneLine(Lines(content), scope, p, l);
    LinesOfText(ScopeEdit(Lines(content), scope, LineBody(p, l)).value);
  }
}
