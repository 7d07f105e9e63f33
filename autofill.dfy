/** The `Autofill` form helper and the two transforms the forms give it.
    `Autofill` keeps two state cells: the source field's value and, once the
    user has typed into it, the target field's value.  Until then the target
    field shows the transformed source. */
module Autofill {
  import opened Js
  import opened Text

  // ---------------------------------------------------------------------------
  // sanitize

  /** The characters `String.prototype.trim` strips: the ECMAScript white
      space characters (tab, vertical tab, form feed, space, no-break space,
      the byte order mark and the space separators) and the line terminators. */
  predicate IsJsWhitespace(c: char) {
    || c == '\t' || c == '\U{000B}' || c == '\U{000C}' || c == ' '
    || c == '\U{00A0}' || c == '\U{FEFF}' || c == '\U{1680}'
    || ('\U{2000}' <= c <= '\U{200A}')
    || c == '\U{202F}' || c == '\U{205F}' || c == '\U{3000}'
    || c == '\n' || c == '\r' || c == '\U{2028}' || c == '\U{2029}'
  }

  /** `trimStart`: the suffix after the leading white space. */
  function TrimStart(s: string): (r: string)
    ensures |r| <= |s| && r == s[|s| - |r|..]
    ensures r == [] || !IsJsWhitespace(r[0])
    ensures forall i :: 0 <= i < |s| - |r| ==> IsJsWhitespace(s[i])
    decreases |s|
  {
    if |s| > 0 && IsJsWhitespace(s[0]) then TrimStart(s[1..]) else s
  }

  /** `trimEnd`: the prefix before the trailing white space. */
  function TrimEnd(s: string): (r: string)
    ensures |r| <= |s| && r == s[..|r|]
    ensures r == [] || !IsJsWhitespace(r[|r| - 1])
    ensures forall i :: |r| <= i < |s| ==> IsJsWhitespace(s[i])
    decreases |s|
  {
    if |s| > 0 && IsJsWhitespace(s[|s| - 1]) then TrimEnd(s[..|s| - 1]) else s
  }

  /** `trim`: neither end of the result is white space, and only white space
      was removed from either end. */
  function Trim(s: string): (r: string)
    ensures |r| <= |s|
    ensures r == [] || (!IsJsWhitespace(r[0]) && !IsJsWhitespace(r[|r| - 1]))
    ensures exists i :: CutAt(s, r, i)
  {
    var t := TrimStart(s);
    var r := TrimEnd(t);
    var i := |s| - |t|;
    assert r == s[i..i + |r|];
    assert forall k :: i + |r| <= k < |s| ==> s[k] == t[k - i];
    assert CutAt(s, r, i);
    r
  }

  /** `r` is the slice of `s` that starts at `i`, and everything of `s`
      outside that slice is white space. */
  predicate CutAt(s: string, r: string, i: int)
  {
    && 0 <= i <= |s| - |r| && r == s[i..i + |r|]
    && (forall k :: 0 <= k < i ==> IsJsWhitespace(s[k]))
    && (forall k :: i + |r| <= k < |s| ==> IsJsWhitespace(s[k]))
  }

  /** `.replace(/ /g, "-")`: every space becomes a dash. */
  function ReplaceSpaces(s: string): (r: string)
    ensures |r| == |s|
    ensures forall i :: 0 <= i < |s| ==> r[i] == if s[i] == ' ' then '-' else s[i]
  {
    seq(|s|, i requires 0 <= i < |s| => if s[i] == ' ' then '-' else s[i])
  }

  /** The character class `[a-zA-Z0-9-_]`. */
  predicate IsDirChar(c: char) {
    IsLower(c) || IsUpper(c) || IsDigit(c) || c == '-' || c == '_'
  }

  /** `.replace(/[^a-zA-Z0-9-_]/g, "")`: the characters of the class, in order. */
  function KeepAllowed(s: string): (r: string)
    ensures |r| <= |s|
    ensures forall c :: c in r <==> c in s && IsDirChar(c)
    ensures forall i :: 0 <= i < |r| ==> IsDirChar(r[i])
    ensures (forall i :: 0 <= i < |s| ==> IsDirChar(s[i])) ==> r == s
  {
    if s == [] then []
    else
      assert s == [s[0]] + s[1..];
      if IsDirChar(s[0]) then [s[0]] + KeepAllowed(s[1..]) else KeepAllowed(s[1..])
  }

  /** The filter works character by character and keeps the order: a single
      character is kept iff it is in the class, and the filter of a
      concatenation is the concatenation of the filters. */
  lemma {:induction false} KeepAllowedAppend(a: string, b: string, c: char)
    ensures KeepAllowed([c]) == if IsDirChar(c) then [c] else []
    ensures KeepAllowed(a + b) == KeepAllowed(a) + KeepAllowed(b)
    decreases |a|
  {
    assert [c][1..] == [];
    if a == [] {
      assert a + b == b;
    } else {
      assert (a + b)[0] == a[0];
      assert (a + b)[1..] == a[1..] + b;
      KeepAllowedAppend(a[1..], b, c);
    }
  }

  /** The characters `sanitize` can produce: `[a-z0-9-_]`. */
  predicate IsSanitizedChar(c: char) {
    IsLower(c) || IsDigit(c) || c == '-' || c == '_'
  }

  /** `sanitize`: trim, spaces to dashes, drop everything outside
      `[a-zA-Z0-9-_]`, lower-case.  The result is made only of `[a-z0-9-_]`
      and is never longer than the input. */
  function Sanitize(s: string): (r: string)
    ensures |r| <= |s|
    ensures forall i :: 0 <= i < |r| ==> IsSanitizedChar(r[i])
  {
    Lower(KeepAllowed(ReplaceSpaces(Trim(s))))
  }

  /** No character of `[a-zA-Z0-9-_]` is white space. */
  lemma DirCharNotWhitespace(c: char)
    requires IsDirChar(c)
    ensures !IsJsWhitespace(c)
  {
  }

  /** A string that neither starts nor ends with white space is its own trim. */
  lemma TrimUntouched(s: string)
    requires s == [] || (!IsJsWhitespace(s[0]) && !IsJsWhitespace(s[|s| - 1]))
    ensures Trim(s) == s
  {
    assert TrimStart(s) == s;
  }

  /** A string of `[a-z0-9-_]` has no white space to trim. */
  lemma TrimClean(s: string)
    requires forall i :: 0 <= i < |s| ==> IsSanitizedChar(s[i])
    ensures Trim(s) == s
  {
    if s != [] {
      DirCharNotWhitespace(s[0]);
      DirCharNotWhitespace(s[|s| - 1]);
    }
    TrimUntouched(s);
  }

  /** A string of `[a-z0-9-_]` has no space, nothing outside the class and no
      upper-case letter. */
  lemma PipelineClean(s: string)
    requires forall i :: 0 <= i < |s| ==> IsSanitizedChar(s[i])
    ensures Lower(KeepAllowed(ReplaceSpaces(s))) == s
  {
    assert ReplaceSpaces(s) == s;
    assert forall i :: 0 <= i < |s| ==> IsDirChar(s[i]);
    assert KeepAllowed(s) == s;
    assert Lower(s) == s;
  }

  /** A string is left unchanged by `sanitize` exactly when it is made only of
      `[a-z0-9-_]`. */
  lemma SanitizeFixpoint(s: string)
    ensures Sanitize(s) == s <==> forall i :: 0 <= i < |s| ==> IsSanitizedChar(s[i])
  {
    if forall i :: 0 <= i < |s| ==> IsSanitizedChar(s[i]) {
      TrimClean(s);
      PipelineClean(s);
    }
  }

  /** `sanitize` is idempotent. */
  lemma SanitizeIdempotent(s: string)
    ensures Sanitize(Sanitize(s)) == Sanitize(s)
  {
    SanitizeFixpoint(Sanitize(s));
  }

  /** Leading white space does not change `trimStart`. */
  lemma {:induction false} TrimStartSkips(pre: string, s: string)
    requires forall i :: 0 <= i < |pre| ==> IsJsWhitespace(pre[i])
    ensures TrimStart(pre + s) == TrimStart(s)
    decreases |pre|
  {
    if pre != [] {
      var whole := pre + s;
      assert whole[0] == pre[0] && IsJsWhitespace(whole[0]);
      assert whole[1..] == pre[1..] + s;
      calc {
        TrimStart(whole);
        TrimStart(whole[1..]);
        { TrimStartSkips(pre[1..], s); }
        TrimStart(s);
      }
    } else {
      assert pre + s == s;
    }
  }

  /** Trailing white space does not change `trimEnd`. */
  lemma {:induction false} TrimEndSkips(s: string, post: string)
    requires forall i :: 0 <= i < |post| ==> IsJsWhitespace(post[i])
    ensures TrimEnd(s + post) == TrimEnd(s)
    decreases |post|
  {
    if post != [] {
      var whole := s + post;
      assert whole[|whole| - 1] == post[|post| - 1] && IsJsWhitespace(whole[|whole| - 1]);
      assert whole[..|whole| - 1] == s + post[..|post| - 1];
      calc {
        TrimEnd(whole);
        TrimEnd(whole[..|whole| - 1]);
        { TrimEndSkips(s, post[..|post| - 1]); }
        TrimEnd(s);
      }
    } else {
      assert s + post == s;
    }
  }

  /** Once a non-white character is reached, `trimStart` keeps the rest. */
  lemma {:induction false} TrimStartAppend(s: string, post: string)
    requires TrimStart(s) != []
    ensures TrimStart(s + post) == TrimStart(s) + post
    decreases |s|
  {
    if IsJsWhitespace(s[0]) {
      assert (s + post)[1..] == s[1..] + post;
      TrimStartAppend(s[1..], post);
    }
  }

  /** `trim` ignores white space around its input. */
  lemma TrimSurrounded(pre: string, s: string, post: string)
    requires forall i :: 0 <= i < |pre| ==> IsJsWhitespace(pre[i])
    requires forall i :: 0 <= i < |post| ==> IsJsWhitespace(post[i])
    ensures Trim(pre + s + post) == Trim(s)
  {
    assert pre + s + post == pre + (s + post);
    TrimStartSkips(pre, s + post);
    if TrimStart(s) != [] {
      TrimStartAppend(s, post);
      TrimEndSkips(TrimStart(s), post);
    } else {
      assert forall i :: 0 <= i < |s + post| ==> IsJsWhitespace((s + post)[i]);
    }
  }

  /** `sanitize` trims first: white space around the input never becomes a
      dash. */
  lemma SanitizeIgnoresSurroundingWhitespace(pre: string, s: string, post: string)
    requires forall i :: 0 <= i < |pre| ==> IsJsWhitespace(pre[i])
    requires forall i :: 0 <= i < |post| ==> IsJsWhitespace(post[i])
    ensures Sanitize(pre + s + post) == Sanitize(s)
  {
    TrimSurrounded(pre, s, post);
  }

  /** "My Server" has nothing to trim. */
  lemma MyServerTrimmed()
    ensures Trim("My Server") == "My Server"
  {
    var name := "My Server";
    DirCharNotWhitespace(name[0]);
    DirCharNotWhitespace(name[|name| - 1]);
    TrimUntouched(name);
  }

  /** "My Server" has one space. */
  lemma MyServerDashed()
    ensures ReplaceSpaces("My Server") == "My-Server"
  {
    assert ReplaceSpaces("My Server")[2] == '-';
  }

  /** "My-Server" has nothing outside the class. */
  lemma MyServerKept()
    ensures KeepAllowed("My-Server") == "My-Server"
  {
    var dashed := "My-Server";
    assert forall i :: 0 <= i < |dashed| ==> IsDirChar(dashed[i]);
  }

  /** "My-Server" has two upper-case letters. */
  lemma MyServerLowered()
    ensures Lower("My-Server") == "my-server"
  {
  }

  /** The surrounding spaces are trimmed, the inner one becomes a dash and the
      letters are lower-cased. */
  lemma SanitizeExample()
    ensures Sanitize(" My Server ") == "my-server"
  {
    assert " My Server " == " " + "My Server" + " ";
    SanitizeIgnoresSurroundingWhitespace(" ", "My Server", " ");
    MyServerTrimmed();
    MyServerDashed();
    MyServerKept();
    MyServerLowered();
  }

  // ---------------------------------------------------------------------------
  // capitalize

  /** `capitalize`: the first character upper-cased, the rest unchanged. */
  function Capitalize(s: string): (r: string)
    ensures |r| == |s|
  {
    if s == [] then [] else [UpperAscii(s[0])] + s[1..]
  }

  /** The empty string stays empty; otherwise only the first character may
      change, and afterwards it is not a lower-case letter. */
  lemma CapitalizeShape(s: string)
    ensures Capitalize(s) == [] <==> s == []
    ensures s != [] ==> Capitalize(s)[1..] == s[1..] && !IsLower(Capitalize(s)[0])
    ensures s != [] && IsLower(s[0]) ==> IsUpper(Capitalize(s)[0])
  {
  }

  /** `capitalize` leaves a string unchanged exactly when it is empty or does
      not start with a lower-case letter, so it is idempotent. */
  lemma CapitalizeFixpoint(s: string)
    ensures Capitalize(s) == s <==> s == [] || !IsLower(s[0])
    ensures Capitalize(Capitalize(s)) == Capitalize(s)
  {
    if s != [] && !IsLower(s[0]) {
      assert Capitalize(s) == [s[0]] + s[1..];
    }
    if s != [] {
      assert Capitalize(s)[0] == UpperAscii(s[0]);
    }
  }

  // ---------------------------------------------------------------------------
  // The two state cells

  /** `target ?? (transform ? transform(source ?? "") : source)`: a set
      target, even the empty string, wins over the source. */
  function TargetValue(target: Option<string>, transform: Option<string -> string>, source: Option<string>): Option<string>
  {
    match target
    case Some(_) => target
    case None =>
      match transform
      case Some(f) => Some(f(match source case Some(v) => v case None => ""))
      case None => source
  }

  /** Once the target holds a value, it is shown whatever the source holds;
      until then the target follows the (transformed) source, an absent
      source reading as "". */
  lemma TargetValueFollows(transform: Option<string -> string>, source: Option<string>, t: string)
    ensures forall other :: TargetValue(Some(t), transform, source) == TargetValue(Some(t), transform, other) == Some(t)
    ensures transform.Some? ==> TargetValue(None, transform, None) == Some(transform.value(""))
    ensures transform.None? ==> TargetValue(None, transform, source) == source
  {
  }

  class AutofillState {
    /** The source field's value, initially `defaultValue`. */
    var source: Option<string>
    /** The target field's value once the user has edited it. */
    var target: Option<string>
    const transform: Option<string -> string>

    constructor (defaultValue: Option<string>, transform: Option<string -> string>)
      ensures source == defaultValue && target == None && this.transform == transform
    {
      source := defaultValue;
      target := None;
      this.transform := transform;
    }

    /** What the target field shows. */
    function Shown(): Option<string>
      reads this
    {
      TargetValue(target, transform, source)
    }

    /** The source text field's `onChange`: the target follows it until the
        target has been edited, and never afterwards. */
    method OnSourceChange(value: string)
      modifies this`source
      ensures source == Some(value)
      ensures old(target) == None && transform.Some? ==> Shown() == Some(transform.value(value))
      ensures old(target) == None && transform.None? ==> Shown() == Some(value)
      ensures old(target) != None ==> Shown() == old(Shown())
    {
      source := Some(value);
    }

    /** The source select's `onSelectionChange`: the chosen key, as a string,
        becomes the source. */
    method OnSelectionChange(key: string)
      modifies this`source
      ensures source == Some(key)
      ensures old(target) == None && transform.Some? ==> Shown() == Some(transform.value(key))
      ensures old(target) != None ==> Shown() == old(Shown())
    {
      OnSourceChange(key);
    }

    /** The target field's `onChange`: from now on it shows what was typed,
        even the empty string. */
    method OnTargetChange(value: string)
      modifies this`target
      ensures target == Some(value) && Shown() == Some(value)
    {
      target := Some(value);
    }
  }
}
