/** String primitives of the JavaScript runtime that the ingestion code relies on:
    `trim`, `split` on a character, `split` on a separator class with empty pieces
    dropped, `slice`, `includes`, `toLowerCase` and the `<` order on strings. */
module Text {

  type String = seq<char>

  /** The characters `String.prototype.trim` and the regular-expression class `\s`
      treat as white space: the ECMAScript WhiteSpace and LineTerminator characters. */
  predicate IsSpace(c: char) {
    || c == ' ' || c == '\t' || c == '\n' || c == '\r' || c == '\U{000B}' || c == '\U{000C}'
    || c == '\U{00A0}' || c == '\U{1680}' || ('\U{2000}' <= c <= '\U{200A}')
    || c == '\U{2028}' || c == '\U{2029}' || c == '\U{202F}' || c == '\U{205F}'
    || c == '\U{3000}' || c == '\U{FEFF}'
  }

  predicate AllSpace(s: String) {
    forall i :: 0 <= i < |s| ==> IsSpace(s[i])
  }

  /** An ASCII letter, upper or lower case. */
  predicate IsAsciiLetter(c: char) {
    ('a' <= c <= 'z') || ('A' <= c <= 'Z')
  }

  /** Number of white-space characters at the front. */
  function LeadingSpaces(s: String): (n: nat)
    ensures n <= |s|
    ensures forall i :: 0 <= i < n ==> IsSpace(s[i])
    ensures n == |s| || !IsSpace(s[n])
  {
    if |s| > 0 && IsSpace(s[0]) then 1 + LeadingSpaces(s[1..]) else 0
  }

  /** Number of white-space characters at the back. */
  function TrailingSpaces(s: String): (n: nat)
    ensures n <= |s|
    ensures forall i :: |s| - n <= i < |s| ==> IsSpace(s[i])
    ensures n == |s| || !IsSpace(s[|s| - 1 - n])
  {
    if |s| > 0 && IsSpace(s[|s| - 1]) then 1 + TrailingSpaces(s[..|s| - 1]) else 0
  }

  /** `String.prototype.trimStart`, the white-space skip of `parseFloat` and `parseInt`. */
  function TrimStart(s: String): (r: String)
    ensures |r| <= |s| && r == s[|s| - |r|..]
    ensures forall i :: 0 <= i < |s| - |r| ==> IsSpace(s[i])
    ensures |r| > 0 ==> !IsSpace(r[0])
  {
    s[LeadingSpaces(s)..]
  }

  /** `String.prototype.trim`: the infix left once white space is removed at both
      ends; `a` below is the number of characters removed at the front. */
  function Trim(s: String): (r: String)
    ensures var a := LeadingSpaces(s);
            a + |r| <= |s| && r == s[a..a + |r|]
            && (forall i :: 0 <= i < a ==> IsSpace(s[i]))
            && (forall i :: a + |r| <= i < |s| ==> IsSpace(s[i]))
    ensures |r| > 0 ==> !IsSpace(r[0]) && !IsSpace(r[|r| - 1])
  {
    var a := LeadingSpaces(s);
    var b := TrailingSpaces(s[a..]);
    s[a..|s| - b]
  }

  /** `trim` leaves nothing exactly when the string is all white space. */
  lemma TrimEmpty(s: String)
    ensures Trim(s) == [] <==> AllSpace(s)
  {
  }

  /** A string with no white space at either end is its own trim. */
  lemma TrimOfTrimmed(s: String)
    requires |s| > 0 ==> !IsSpace(s[0]) && !IsSpace(s[|s| - 1])
    ensures Trim(s) == s
  {
  }

  /** White space followed by a string that does not start with white space loses
      exactly that white space to `TrimStart`. */
  lemma TrimLeadingSpaces(pad: String, s: String)
    requires AllSpace(pad)
    requires |s| > 0 && !IsSpace(s[0])
    ensures TrimStart(pad + s) == s
  {
    var t := pad + s;
    var n := LeadingSpaces(t);
    assert forall i :: 0 <= i < |pad| ==> t[i] == pad[i];
    assert t[|pad|] == s[0];
    if n < |pad| { assert false; }
    if n > |pad| { assert false; }
    assert t[|pad|..] == s;
  }

  /** Every line trimmed, in place. */
  function MapTrim(lines: seq<String>): (r: seq<String>)
    ensures |r| == |lines|
    ensures forall i :: 0 <= i < |r| ==> r[i] == Trim(lines[i])
  {
    seq(|lines|, i requires 0 <= i < |lines| => Trim(lines[i]))
  }

  /** The lines that are not empty, in their original order. */
  function NonBlank(lines: seq<String>): (r: seq<String>)
    ensures |r| <= |lines|
    ensures forall i :: 0 <= i < |r| ==> r[i] != []
  {
    if |lines| == 0 then []
    else (if lines[0] == [] then [] else [lines[0]]) + NonBlank(lines[1..])
  }

  /** Every non-empty line is kept and nothing else is; filtering distributes
      over concatenation, so the kept lines stay in their original order. */
  lemma {:induction false} NonBlankAppend(a: seq<String>, b: seq<String>)
    ensures NonBlank(a + b) == NonBlank(a) + NonBlank(b)
    ensures forall l :: l in NonBlank(a) <==> l in a && l != []
  {
    if |a| > 0 {
      assert (a + b)[1..] == a[1..] + b;
      NonBlankAppend(a[1..], b);
      assert forall l :: l in a <==> l == a[0] || l in a[1..] by {
        assert a == [a[0]] + a[1..];
      }
    } else {
      assert a + b == b;
    }
  }

  lemma {:induction false} NonBlankKeepsAll(lines: seq<String>)
    requires forall i :: 0 <= i < |lines| ==> lines[i] != []
    ensures NonBlank(lines) == lines
  {
    if |lines| > 0 {
      NonBlankKeepsAll(lines[1..]);
      assert lines == [lines[0]] + lines[1..];
    }
  }

  /** A first line that is not empty stays first. */
  lemma NonBlankHead(lines: seq<String>)
    requires |lines| > 0 && lines[0] != []
    ensures |NonBlank(lines)| > 0 && NonBlank(lines)[0] == lines[0]
  {
  }

  lemma NonBlankDropsBlank(a: String, rest: seq<String>)
    ensures NonBlank([a, []] + rest) == [a] + NonBlank(rest) || a == []
  {
    var lines := [a, []] + rest;
    assert lines[1..] == [[]] + rest;
    assert lines[1..][1..] == rest;
  }

  predicate StartsWith(s: String, prefix: String) {
    |prefix| <= |s| && s[..|prefix|] == prefix
  }

  /** Whether `pat` occurs somewhere in `s`. */
  predicate Includes(s: String, pat: String)
    decreases |s|
  {
    StartsWith(s, pat) || (|s| > 0 && Includes(s[1..], pat))
  }

  /** Position of the first occurrence of `c`, if any. */
  function IndexOf(s: String, c: char): (r: nat)
    requires c in s
    ensures r < |s| && s[r] == c && c !in s[..r]
  {
    if s[0] == c then 0 else 1 + IndexOf(s[1..], c)
  }

  /** `s.split(c)` for a one-character separator: the pieces between the
      occurrences of `c`, always at least one. */
  function Split(s: String, sep: char): (parts: seq<String>)
    ensures |parts| >= 1
    ensures forall i :: 0 <= i < |parts| ==> sep !in parts[i]
    decreases |s|
  {
    if sep !in s then [s]
    else
      var i := IndexOf(s, sep);
      [s[..i]] + Split(s[i + 1..], sep)
  }

  /** `parts.join(sep)`, the inverse of `Split`. */
  function Join(parts: seq<String>, sep: char): String
    requires |parts| >= 1
  {
    if |parts| == 1 then parts[0] else parts[0] + [sep] + Join(parts[1..], sep)
  }

  lemma {:induction false} JoinSplit(s: String, sep: char)
    ensures Join(Split(s, sep), sep) == s
    decreases |s|
  {
    if sep in s {
      var i := IndexOf(s, sep);
      JoinSplit(s[i + 1..], sep);
      var parts, rest := Split(s, sep), Split(s[i + 1..], sep);
      assert parts == [s[..i]] + rest;
      assert parts[1..] == rest;
      assert Join(parts, sep) == s[..i] + [sep] + Join(rest, sep);
      assert s == s[..i] + [sep] + s[i + 1..];
    } else {
      assert Split(s, sep) == [s];
    }
  }

  lemma {:induction false} SplitJoin(parts: seq<String>, sep: char)
    requires |parts| >= 1
    requires forall i :: 0 <= i < |parts| ==> sep !in parts[i]
    ensures Split(Join(parts, sep), sep) == parts
  {
    if |parts| > 1 {
      var s := Join(parts, sep);
      var rest := Join(parts[1..], sep);
      assert s == parts[0] + [sep] + rest;
      SplitCons(parts[0], sep, rest);
      assert forall i :: 0 <= i < |parts[1..]| ==> parts[1..][i] == parts[i + 1];
      SplitJoin(parts[1..], sep);
      assert parts == [parts[0]] + parts[1..];
    } else {
      assert Split(parts[0], sep) == [parts[0]];
    }
  }

  /** A piece without the separator, then the separator, splits off first. */
  lemma SplitCons(p: String, sep: char, rest: String)
    requires sep !in p
    ensures Split(p + [sep] + rest, sep) == [p] + Split(rest, sep)
  {
    var s := p + [sep] + rest;
    FirstSeparator(p, sep, rest);
    assert s[|p|] == sep;
    SplitAtFirst(s, sep);
    assert s[..|p|] == p;
    assert s[|p| + 1..] == rest;
  }

  lemma SplitAtFirst(s: String, sep: char)
    requires sep in s
    ensures var i := IndexOf(s, sep);
            Split(s, sep) == [s[..i]] + Split(s[i + 1..], sep)
  {
  }

  /** The last piece of `s.split(sep)`, as `split(sep).pop()` yields it. */
  function LastPiece(s: String, sep: char): (r: String)
    ensures sep !in r
  {
    var parts := Split(s, sep);
    parts[|parts| - 1]
  }

  /** The last piece of a split is the text after the last separator. */
  lemma {:induction false} SplitLast(s: String, sep: char, t: String)
    requires sep !in t
    ensures LastPiece(s + [sep] + t, sep) == t
    decreases |s|
  {
    var whole := s + [sep] + t;
    if sep in s {
      var j := IndexOf(s, sep);
      var tail := s[j + 1..] + [sep] + t;
      assert whole == s[..j] + [sep] + tail by { assert s == s[..j] + [sep] + s[j + 1..]; }
      LastPieceCons(s[..j], sep, tail);
      SplitLast(s[j + 1..], sep, t);
    } else {
      LastPieceCons(s, sep, t);
      LastPieceWhole(t, sep);
    }
  }

  /** A first piece split off does not change the last one. */
  lemma LastPieceCons(p: String, sep: char, tail: String)
    requires sep !in p
    ensures LastPiece(p + [sep] + tail, sep) == LastPiece(tail, sep)
  {
    SplitCons(p, sep, tail);
    LastOfCons(p, Split(tail, sep));
  }

  lemma FirstSeparator(s: String, sep: char, t: String)
    ensures IndexOf(s + [sep] + t, sep) == if sep in s then IndexOf(s, sep) else |s|
  {
    var whole := s + [sep] + t;
    if sep in s {
      var j := IndexOf(s, sep);
      assert whole[j] == sep && sep !in whole[..j] by { assert whole[..j] == s[..j]; }
      IndexOfFirst(whole, sep, j);
    } else {
      assert whole[|s|] == sep && sep !in whole[..|s|] by { assert whole[..|s|] == s; }
      IndexOfFirst(whole, sep, |s|);
    }
  }

  lemma LastOfCons<T>(x: T, rest: seq<T>)
    requires |rest| > 0
    ensures var xs := [x] + rest; xs[|xs| - 1] == rest[|rest| - 1]
  {
  }

  lemma LastPieceWhole(s: String, sep: char)
    requires sep !in s
    ensures LastPiece(s, sep) == s
  {
  }

  lemma IndexOfFirst(s: String, c: char, k: nat)
    requires k < |s| && s[k] == c && c !in s[..k]
    ensures IndexOf(s, c) == k
  {
  }

  /** Lower-casing goes piece by piece and never makes a dot. */
  lemma LowerAround(a: String, b: String)
    ensures Lower(a + "." + b) == Lower(a) + "." + Lower(b)
    ensures '.' !in b ==> '.' !in Lower(b)
  {
    var l := Lower(a + "." + b);
    var r := Lower(a) + "." + Lower(b);
    assert |l| == |r|;
    forall i | 0 <= i < |l| ensures l[i] == r[i] {
      if i < |a| {
        assert (a + "." + b)[i] == a[i];
      } else if i > |a| {
        assert (a + "." + b)[i] == b[i - |a| - 1];
      }
    }
    if '.' !in b {
      forall i | 0 <= i < |b| ensures Lower(b)[i] != '.' {
        assert b[i] != '.';
      }
    }
  }

  /** Removes one trailing carriage return. */
  function DropCR(s: String): (r: String)
    ensures r == s || (r + ['\r'] == s)
    ensures |s| == 0 || s[|s| - 1] != '\r' ==> r == s
  {
    if |s| > 0 && s[|s| - 1] == '\r' then s[..|s| - 1] else s
  }

  function MapDropCR(parts: seq<String>): (r: seq<String>)
    ensures |r| == |parts|
    ensures forall i :: 0 <= i < |r| ==> r[i] == DropCR(parts[i])
  {
    if |parts| == 0 then [] else [DropCR(parts[0])] + MapDropCR(parts[1..])
  }

  /** `text.split(/\r?\n/)`: a line break is a newline together with a carriage
      return right before it. A carriage return is dropped only where a newline
      follows it, so the last line keeps a trailing one. */
  function SplitLines(text: String): (lines: seq<String>)
    ensures |lines| >= 1
  {
    var parts := Split(text, '\n');
    MapDropCR(parts[..|parts| - 1]) + [parts[|parts| - 1]]
  }

  /** Text without a newline is one line, whatever carriage returns it holds. */
  lemma SplitLinesOneLine(text: String)
    requires '\n' !in text
    ensures SplitLines(text) == [text]
  {
    assert Split(text, '\n') == [text];
    assert MapDropCR([]) == [];
  }

  /** Lines that hold neither a newline nor a trailing carriage return come back
      from `SplitLines` after being joined with newlines. */
  lemma SplitLinesJoin(lines: seq<String>)
    requires |lines| >= 1
    requires forall i :: 0 <= i < |lines| ==> '\n' !in lines[i]
    requires forall i :: 0 <= i < |lines| ==> |lines[i]| == 0 || lines[i][|lines[i]| - 1] != '\r'
    ensures SplitLines(Join(lines, '\n')) == lines
  {
    SplitJoin(lines, '\n');
    LinesOfPieces(Join(lines, '\n'), lines);
  }

  lemma LinesOfPieces(text: String, parts: seq<String>)
    requires Split(text, '\n') == parts
    requires forall i :: 0 <= i < |parts| ==> |parts[i]| == 0 || parts[i][|parts[i]| - 1] != '\r'
    ensures SplitLines(text) == parts
  {
    var init := parts[..|parts| - 1];
    NoCRKept(init);
    assert init + [parts[|parts| - 1]] == parts;
  }

  lemma NoCRKept(parts: seq<String>)
    requires forall i :: 0 <= i < |parts| ==> |parts[i]| == 0 || parts[i][|parts[i]| - 1] != '\r'
    ensures MapDropCR(parts) == parts
  {
    var dropped := MapDropCR(parts);
    assert forall i :: 0 <= i < |parts| ==> dropped[i] == parts[i];
  }

  /** `replace(/\r\n/g, '\n').replace(/\r/g, '\n')`: every CR LF pair and every
      lone CR becomes one newline. */
  function NormalizeNewlines(s: String): (r: String)
    ensures '\r' !in r
    ensures '\r' !in s ==> r == s
    decreases |s|
  {
    if |s| == 0 then []
    else if s[0] == '\r' && |s| > 1 && s[1] == '\n' then ['\n'] + NormalizeNewlines(s[2..])
    else if s[0] == '\r' then ['\n'] + NormalizeNewlines(s[1..])
    else [s[0]] + NormalizeNewlines(s[1..])
  }

  /** Length of the leading run of characters satisfying `p`. */
  function RunLength(s: String, p: char -> bool): (n: nat)
    ensures n <= |s|
    ensures forall i :: 0 <= i < n ==> p(s[i])
    ensures n == |s| || !p(s[n])
  {
    if |s| > 0 && p(s[0]) then 1 + RunLength(s[1..], p) else 0
  }

  predicate NoneIn(s: String, isSep: char -> bool) {
    forall i :: 0 <= i < |s| ==> !isSep(s[i])
  }

  /** `s.split(/[…]+/).filter(Boolean)` for the separator class `isSep`: the
      maximal runs of non-separator characters, left to right. */
  function Tokens(s: String, isSep: char -> bool): (ts: seq<String>)
    ensures forall i :: 0 <= i < |ts| ==> |ts[i]| > 0 && NoneIn(ts[i], isSep)
    decreases |s|
  {
    if |s| == 0 then []
    else if isSep(s[0]) then Tokens(s[1..], isSep)
    else
      var n := RunLength(s, c => !isSep(c));
      [s[..n]] + Tokens(s[n..], isSep)
  }

  /** Joining separator-free words with one separator between them and
      tokenising again gives back the words. */
  lemma {:induction false} TokensJoin(words: seq<String>, sep: char, isSep: char -> bool)
    requires |words| >= 1 && isSep(sep)
    requires forall i :: 0 <= i < |words| ==> |words[i]| > 0 && NoneIn(words[i], isSep)
    ensures Tokens(Join(words, sep), isSep) == words
  {
    var w := words[0];
    var s := Join(words, sep);
    if |words| == 1 {
      assert s == w + [];
      TokensFirst(s, w, [], isSep);
    } else {
      var rest := Join(words[1..], sep);
      assert s == w + ([sep] + rest);
      TokensFirst(s, w, [sep] + rest, isSep);
      assert ([sep] + rest)[1..] == rest;
      TokensJoin(words[1..], sep, isSep);
    }
  }

  /** A separator-free word at the head of `s`, followed by nothing or by a
      separator, is its first token. */
  lemma TokensFirst(s: String, w: String, tail: String, isSep: char -> bool)
    requires s == w + tail && |w| > 0 && NoneIn(w, isSep)
    requires |tail| == 0 || isSep(tail[0])
    ensures Tokens(s, isSep) == [w] + Tokens(tail, isSep)
  {
    assert forall i :: 0 <= i < |w| ==> s[i] == w[i];
    assert |tail| > 0 ==> s[|w|] == tail[0];
    RunLengthExact(s, |w|, c => !isSep(c));
    assert s[..|w|] == w;
    assert s[|w|..] == tail;
  }

  lemma RunLengthExact(s: String, k: nat, p: char -> bool)
    requires k <= |s|
    requires forall i :: 0 <= i < k ==> p(s[i])
    requires k == |s| || !p(s[k])
    ensures RunLength(s, p) == k
  {
    var n := RunLength(s, p);
    if n < k { assert false; }
    if n > k { assert false; }
  }

  /** `String.prototype.slice(start, end)`: negative positions count from the end
      and positions past the end are clamped. */
  function Slice(s: String, start: int, end: int): (r: String)
    ensures 0 <= start <= end <= |s| ==> r == s[start..end]
    ensures |r| <= |s|
  {
    var len := |s|;
    var from := if start < 0 then (if len + start < 0 then 0 else len + start)
                else if start < len then start else len;
    var to := if end < 0 then (if len + end < 0 then 0 else len + end)
              else if end < len then end else len;
    if from < to then s[from..to] else []
  }

  /** ASCII letter case folding, the part of `toLowerCase` this model covers. */
  function LowerChar(c: char): (r: char)
    ensures 'A' <= c <= 'Z' ==> r as int == c as int + 32
    ensures !('A' <= c <= 'Z') ==> r == c
  {
    if 'A' <= c <= 'Z' then (c as int + 32) as char else c
  }

  function Lower(s: String): (r: String)
    ensures |r| == |s|
    ensures forall i :: 0 <= i < |s| ==> r[i] == LowerChar(s[i])
  {
    if |s| == 0 then [] else [LowerChar(s[0])] + Lower(s[1..])
  }

  /** Case-insensitive comparison of two strings as the `i` regular-expression
      flag performs it on ASCII text. */
  predicate EqualsIgnoringCase(a: String, b: String) {
    |a| == |b| && forall i :: 0 <= i < |a| ==> LowerChar(a[i]) == LowerChar(b[i])
  }

  /** The `<` order of JavaScript on strings: lexicographic by character, a proper
      prefix first. */
  predicate LexLess(a: String, b: String)
    decreases |a|
  {
    if |a| == 0 then |b| > 0
    else if |b| == 0 then false
    else if a[0] != b[0] then a[0] < b[0]
    else LexLess(a[1..], b[1..])
  }

  lemma {:induction false} LexLessIrreflexive(a: String)
    ensures !LexLess(a, a)
  {
    if |a| > 0 { LexLessIrreflexive(a[1..]); }
  }

  lemma {:induction false} LexLessAsymmetric(a: String, b: String)
    ensures LexLess(a, b) ==> !LexLess(b, a)
  {
    if |a| > 0 && |b| > 0 && a[0] == b[0] { LexLessAsymmetric(a[1..], b[1..]); }
  }

  lemma {:induction false} LexLessTransitive(a: String, b: String, c: String)
    requires LexLess(a, b) && LexLess(b, c)
    ensures LexLess(a, c)
  {
    if |a| > 0 && |b| > 0 && |c| > 0 && a[0] == b[0] && b[0] == c[0] {
      LexLessTransitive(a[1..], b[1..], c[1..]);
    }
  }

  lemma {:induction false} LexLessTotal(a: String, b: String)
    ensures a == b || LexLess(a, b) || LexLess(b, a)
  {
    if |a| > 0 && |b| > 0 && a[0] == b[0] {
      LexLessTotal(a[1..], b[1..]);
      if a[1..] == b[1..] { assert a == [a[0]] + a[1..] && b == [b[0]] + b[1..]; }
    }
  }
}
