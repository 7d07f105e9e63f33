/** String operations the model relies on: `String.prototype.split` with a
    one-character separator, its inverse `join`, and the ASCII character
    classes and case mappings used by the name and directory checks. */
module Text {

  /** `s.split(sep)`: the pieces of `s` between occurrences of `sep`.
      There is always at least one piece. */
  function Split(s: string, sep: char): (r: seq<string>)
    ensures |r| >= 1
    decreases |s|
  {
    if s == [] then [""]
    else if s[0] == sep then [""] + Split(s[1..], sep)
    else
      var t := Split(s[1..], sep);
      [[s[0]] + t[0]] + t[1..]
  }

  /** `parts.join(sep)`. */
  function Join(parts: seq<string>, sep: char): string
    decreases |parts|
  {
    if |parts| == 0 then ""
    else if |parts| == 1 then parts[0]
    else parts[0] + [sep] + Join(parts[1..], sep)
  }

  /** Each line followed by a newline, in order. */
  function Terminated(lines: seq<string>): string
    decreases |lines|
  {
    if lines == [] then "" else lines[0] + "\n" + Terminated(lines[1..])
  }

  /** Number of occurrences of `c` in `s`. */
  function Count(s: string, c: char): nat
    decreases |s|
  {
    if s == [] then 0 else (if s[0] == c then 1 else 0) + Count(s[1..], c)
  }

  function Last<T>(s: seq<T>): T
    requires |s| > 0
  {
    s[|s| - 1]
  }

  /** The complete lines of `s`: every piece that a newline terminates. */
  function CompleteLines(s: string): (r: seq<string>)
  {
    var p := Split(s, '\n');
    p[..|p| - 1]
  }

  /** The unterminated fragment after the last newline of `s`. */
  function Rest(s: string): (r: string)
  {
    Last(Split(s, '\n'))
  }

  // ---------------------------------------------------------------------------
  // Properties of Split

  /** No piece contains the separator. */
  lemma {:induction false} SplitPiecesFree(s: string, sep: char)
    ensures forall i :: 0 <= i < |Split(s, sep)| ==> sep !in Split(s, sep)[i]
    decreases |s|
  {
    if s != [] {
      SplitPiecesFree(s[1..], sep);
      var t := Split(s[1..], sep);
      if s[0] != sep {
        assert Split(s, sep) == [[s[0]] + t[0]] + t[1..];
        forall i | 0 <= i < |Split(s, sep)| ensures sep !in Split(s, sep)[i] {
          if i == 0 {
            assert sep !in t[0];
          } else {
            assert Split(s, sep)[i] == t[i];
          }
        }
      }
    }
  }

  /** Splitting yields one more piece than there are separators. */
  lemma {:induction false} SplitCount(s: string, sep: char)
    ensures |Split(s, sep)| == Count(s, sep) + 1
    decreases |s|
  {
    if s != [] {
      SplitCount(s[1..], sep);
    }
  }

  /** Joining the pieces with the separator gives the string back. */
  lemma {:induction false} SplitJoin(s: string, sep: char)
    ensures Join(Split(s, sep), sep) == s
    decreases |s|
  {
    if s != [] {
      var t := Split(s[1..], sep);
      SplitJoin(s[1..], sep);
      if s[0] == sep {
        assert Split(s, sep) == [""] + t;
        assert Join(Split(s, sep), sep) == "" + [sep] + Join(t, sep);
        assert s == [sep] + s[1..];
      } else {
        var r := Split(s, sep);
        assert r == [[s[0]] + t[0]] + t[1..];
        if |t| == 1 {
          assert Join(t, sep) == t[0];
          assert Join(r, sep) == [s[0]] + t[0];
        } else {
          assert Join(t, sep) == t[0] + [sep] + Join(t[1..], sep);
          assert r[1..] == t[1..];
          assert Join(r, sep) == ([s[0]] + t[0]) + [sep] + Join(t[1..], sep);
        }
        assert s == [s[0]] + s[1..];
      }
    }
  }

  /** Joining separator-free pieces and splitting again gives the pieces back. */
  lemma {:induction false} JoinSplit(parts: seq<string>, sep: char)
    requires |parts| >= 1
    requires forall i :: 0 <= i < |parts| ==> sep !in parts[i]
    ensures Split(Join(parts, sep), sep) == parts
    decreases |parts|, |parts[0]|
  {
    if parts[0] == [] {
      if |parts| == 1 {
        assert Join(parts, sep) == "";
      } else {
        var tail := Join(parts[1..], sep);
        assert Join(parts, sep) == [sep] + tail;
        JoinSplit(parts[1..], sep);
        assert ([sep] + tail)[1..] == tail;
        assert parts == [""] + parts[1..];
      }
    } else {
      var c := parts[0][0];
      var shorter := [parts[0][1..]] + parts[1..];
      assert shorter[1..] == parts[1..];
      forall i | 0 <= i < |shorter| ensures sep !in shorter[i] {
        if i == 0 {
          assert forall k :: 0 <= k < |parts[0][1..]| ==> parts[0][1..][k] == parts[0][k + 1];
        } else {
          assert shorter[i] == parts[i];
        }
      }
      JoinSplit(shorter, sep);
      var js := Join(shorter, sep);
      assert Join(parts, sep) == [c] + js by {
        if |parts| == 1 {
          assert parts[0] == [c] + parts[0][1..];
        } else {
          assert parts[0] == [c] + parts[0][1..];
          assert Join(parts, sep) == parts[0] + [sep] + Join(parts[1..], sep);
          assert js == parts[0][1..] + [sep] + Join(parts[1..], sep);
        }
      }
      assert c != sep by { assert c == parts[0][0]; }
      assert ([c] + js)[1..] == js;
      assert ([c] + js)[0] == c;
      var t := Split(js, sep);
      assert t == shorter;
      assert Split([c] + js, sep) == [[c] + t[0]] + t[1..];
      assert [c] + parts[0][1..] == parts[0];
      assert [[c] + t[0]] + t[1..] == parts;
    }
  }

  /** Splitting a string that starts with `c`, from splitting the rest. */
  lemma SplitCons(c: char, s: string, sep: char)
    ensures Split([c] + s, sep) == if c == sep then [""] + Split(s, sep)
      else [[c] + Split(s, sep)[0]] + Split(s, sep)[1..]
  {
    assert ([c] + s)[1..] == s;
  }

  /** Gluing a head onto the first piece commutes with dropping the last. */
  lemma GlueFirstPiece(h: string, p: seq<string>, q: seq<string>)
    requires |p| > 1
    ensures var t := p[..|p| - 1] + q;
      [h + t[0]] + t[1..] == ([h + p[0]] + p[1..])[..|p| - 1] + q
  {
    var t := p[..|p| - 1] + q;
    assert t[0] == p[0];
    assert t[1..] == p[1..|p| - 1] + q;
    assert ([h + p[0]] + p[1..])[..|p| - 1] == [h + p[0]] + p[1..|p| - 1];
  }

  /** `SplitAppendStep` when the string starts with a newline. */
  lemma SplitAppendStepNewline(a: string, b: string)
    requires Split(a + b, '\n') == CompleteLines(a) + Split(Rest(a) + b, '\n')
    ensures Split(['\n'] + a + b, '\n') == CompleteLines(['\n'] + a) + Split(Rest(['\n'] + a) + b, '\n')
  {
    assert ['\n'] + a + b == ['\n'] + (a + b);
    SplitCons('\n', a + b, '\n');
    SplitCons('\n', a, '\n');
    assert CompleteLines(['\n'] + a) == [""] + CompleteLines(a);
  }

  /** `SplitAppendStep` when `a` holds no newline. */
  lemma SplitAppendStepFragment(c: char, a: string, b: string)
    requires c != '\n' && |Split(a, '\n')| == 1
    requires Split(a + b, '\n') == CompleteLines(a) + Split(Rest(a) + b, '\n')
    ensures Split([c] + a + b, '\n') == CompleteLines([c] + a) + Split(Rest([c] + a) + b, '\n')
  {
    assert CompleteLines(a) == [];
    assert Split(a + b, '\n') == Split(Rest(a) + b, '\n');
    assert [c] + a + b == [c] + (a + b);
    SplitCons(c, a + b, '\n');
    SplitCons(c, a, '\n');
    assert CompleteLines([c] + a) == [];
    assert Rest([c] + a) == [c] + Rest(a);
    assert Rest([c] + a) + b == [c] + (Rest(a) + b);
    SplitCons(c, Rest(a) + b, '\n');
  }

  /** `SplitAppendStep` when `a` holds a newline and `c` is not one. */
  lemma SplitAppendStepLine(c: char, a: string, b: string)
    requires c != '\n' && |Split(a, '\n')| > 1
    requires Split(a + b, '\n') == CompleteLines(a) + Split(Rest(a) + b, '\n')
    ensures Split([c] + a + b, '\n') == CompleteLines([c] + a) + Split(Rest([c] + a) + b, '\n')
  {
    assert [c] + a + b == [c] + (a + b);
    SplitCons(c, a + b, '\n');
    SplitCons(c, a, '\n');
    GlueFirstPiece([c], Split(a, '\n'), Split(Rest(a) + b, '\n'));
  }

  /** One step of `SplitAppendPieces`, for a string starting with `c`. */
  lemma SplitAppendStep(c: char, a: string, b: string)
    requires Split(a + b, '\n') == CompleteLines(a) + Split(Rest(a) + b, '\n')
    ensures Split([c] + a + b, '\n') == CompleteLines([c] + a) + Split(Rest([c] + a) + b, '\n')
  {
    if c == '\n' {
      SplitAppendStepNewline(a, b);
    } else if |Split(a, '\n')| == 1 {
      SplitAppendStepFragment(c, a, b);
    } else {
      SplitAppendStepLine(c, a, b);
    }
  }

  /** The pieces of `a + b`: the complete lines of `a`, then the pieces of
      what `a` left over followed by `b`. */
  lemma {:induction false} SplitAppendPieces(a: string, b: string)
    ensures Split(a + b, '\n') == CompleteLines(a) + Split(Rest(a) + b, '\n')
    decreases |a|
  {
    if a == [] {
      assert a + b == b;
      assert Split(a, '\n') == [""];
      assert Rest(a) + b == b;
    } else {
      SplitAppendPieces(a[1..], b);
      SplitAppendStep(a[0], a[1..], b);
      assert [a[0]] + a[1..] == a;
    }
  }

  /** The framing step is incremental: splitting `a + b` splits off the
      complete lines of `a`, then splits what `a` left over followed by `b`. */
  lemma SplitAppend(a: string, b: string)
    ensures CompleteLines(a + b) == CompleteLines(a) + CompleteLines(Rest(a) + b)
    ensures Rest(a + b) == Rest(Rest(a) + b)
  {
    SplitAppendPieces(a, b);
    var q := Split(Rest(a) + b, '\n');
    assert Split(a + b, '\n')[..|Split(a + b, '\n')| - 1] == CompleteLines(a) + q[..|q| - 1];
  }

  /** Terminating the complete lines and appending the rest gives `s` back. */
  lemma {:induction false} FramingConserves(s: string)
    ensures Terminated(CompleteLines(s)) + Rest(s) == s
  {
    var p := Split(s, '\n');
    SplitJoin(s, '\n');
    TerminatedJoin(p);
  }

  lemma {:induction false} TerminatedJoin(p: seq<string>)
    requires |p| >= 1
    ensures Terminated(p[..|p| - 1]) + Last(p) == Join(p, '\n')
    decreases |p|
  {
    if |p| > 1 {
      TerminatedJoin(p[1..]);
      assert p[1..][..|p| - 2] == p[1..|p| - 1];
      assert p[..|p| - 1][1..] == p[1..|p| - 1];
      assert Terminated(p[..|p| - 1]) == p[0] + "\n" + Terminated(p[1..|p| - 1]);
    }
  }

  /** Framing a text made of newline-free terminated lines gives those lines
      back, with nothing left over. */
  lemma {:induction false} TerminatedFrames(lines: seq<string>)
    requires forall i :: 0 <= i < |lines| ==> '\n' !in lines[i]
    ensures CompleteLines(Terminated(lines)) == lines
    ensures Rest(Terminated(lines)) == ""
  {
    var p := lines + [""];
    assert p[..|p| - 1] == lines;
    TerminatedJoin(p);
    assert Terminated(lines) == Join(p, '\n');
    JoinSplit(p, '\n');
  }

  /** Terminated distributes over concatenation. */
  lemma {:induction false} TerminatedAppend(a: seq<string>, b: seq<string>)
    ensures Terminated(a + b) == Terminated(a) + Terminated(b)
    decreases |a|
  {
    if a == [] {
      assert a + b == b;
    } else {
      TerminatedAppend(a[1..], b);
      assert (a + b)[1..] == a[1..] + b;
    }
  }

  // ---------------------------------------------------------------------------
  // ASCII character classes and case mappings

  predicate IsLower(c: char) { 'a' <= c <= 'z' }
  predicate IsUpper(c: char) { 'A' <= c <= 'Z' }
  predicate IsDigit(c: char) { '0' <= c <= '9' }

  /** `toLowerCase` on one character, for ASCII letters. */
  function LowerAscii(c: char): char
  {
    if IsUpper(c) then (c as int - 'A' as int + 'a' as int) as char else c
  }

  /** `toUpperCase` on one character, for ASCII letters. */
  function UpperAscii(c: char): char
  {
    if IsLower(c) then (c as int - 'a' as int + 'A' as int) as char else c
  }

  /** `toLowerCase` on a string of ASCII characters. */
  function Lower(s: string): (r: string)
    ensures |r| == |s|
    ensures forall i :: 0 <= i < |s| ==> r[i] == LowerAscii(s[i])
  {
    seq(|s|, i requires 0 <= i < |s| => LowerAscii(s[i]))
  }
}
