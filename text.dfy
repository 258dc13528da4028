/** The two string operations the page applies to user input:
    `String.prototype.trim` and `String.prototype.toUpperCase`. */
module Text {

  /** The characters `trim` removes: ECMAScript WhiteSpace (TAB, VT, FF,
      SPACE, NO-BREAK SPACE, ZERO WIDTH NO-BREAK SPACE and the Unicode
      space separators) and LineTerminator (LF, CR, LINE and PARAGRAPH
      SEPARATOR). */
  predicate IsJsSpace(c: char) {
    || c == '\t' || c == '\n' || c == '\U{000B}' || c == '\U{000C}' || c == '\r'
    || c == ' ' || c == '\U{00A0}' || c == '\U{1680}' || '\U{2000}' <= c <= '\U{200A}'
    || c == '\U{2028}' || c == '\U{2029}' || c == '\U{202F}' || c == '\U{205F}'
    || c == '\U{3000}' || c == '\U{FEFF}'
  }

  /** Drops the leading run of spaces: the result is a suffix of `s`, what
      was dropped is all space, and the result does not start with one. */
  function TrimStart(s: string): (r: string)
    ensures |r| <= |s| && r == s[|s| - |r|..]
    ensures forall i :: 0 <= i < |s| - |r| ==> IsJsSpace(s[i])
    ensures r == [] || !IsJsSpace(r[0])
  {
    if s != [] && IsJsSpace(s[0]) then TrimStart(s[1..]) else s
  }

  /** Drops the trailing run of spaces: the result is a prefix of `s`, what
      was dropped is all space, and the result does not end with one. */
  function TrimEnd(s: string): (r: string)
    ensures |r| <= |s| && r == s[..|r|]
    ensures forall i :: |r| <= i < |s| ==> IsJsSpace(s[i])
    ensures r == [] || !IsJsSpace(r[|r| - 1])
  {
    if s != [] && IsJsSpace(s[|s| - 1]) then TrimEnd(s[..|s| - 1]) else s
  }

  /** `trim`: the slice of `s` left after removing the leading and trailing
      runs of spaces; it is empty exactly when `s` is all space. */
  function Trim(s: string): (r: string)
    ensures |r| <= |s|
    ensures exists a, b :: 0 <= a <= b <= |s| && r == s[a..b]
              && (forall i :: 0 <= i < a ==> IsJsSpace(s[i]))
              && (forall i :: b <= i < |s| ==> IsJsSpace(s[i]))
    ensures r == [] || (!IsJsSpace(r[0]) && !IsJsSpace(r[|r| - 1]))
    ensures r == [] <==> forall i :: 0 <= i < |s| ==> IsJsSpace(s[i])
  {
    TrimIsSlice(s);
    TrimEdges(s);
    TrimStart(TrimEnd(s))
  }

  /** What is left has no outer space, and nothing is left exactly when `s`
      is all space. */
  lemma TrimEdges(s: string)
    ensures var r := TrimStart(TrimEnd(s));
            && |r| <= |s|
            && (r == [] || (!IsJsSpace(r[0]) && !IsJsSpace(r[|r| - 1])))
            && (r == [] <==> forall i :: 0 <= i < |s| ==> IsJsSpace(s[i]))
  {
    var p := TrimEnd(s);
    var r := TrimStart(p);
    if r != [] {
      assert r == p[|p| - |r|..];
      assert r[|r| - 1] == p[|p| - 1];
    }
  }

  /** The trimmed text is a slice of `s` with only space outside it. */
  lemma TrimIsSlice(s: string)
    ensures exists a, b :: 0 <= a <= b <= |s| && TrimStart(TrimEnd(s)) == s[a..b]
              && (forall i :: 0 <= i < a ==> IsJsSpace(s[i]))
              && (forall i :: b <= i < |s| ==> IsJsSpace(s[i]))
  {
    var p := TrimEnd(s);
    var r := TrimStart(p);
    var a := |p| - |r|;
    assert p == s[..|p|] && r == p[a..];
    forall i | 0 <= i < a ensures IsJsSpace(s[i]) {
      assert s[i] == p[i];
    }
    assert r == s[a..|p|];
    assert forall i :: |p| <= i < |s| ==> IsJsSpace(s[i]);
  }

  /** Trimming a core that neither starts nor ends with a space, padded by
      spaces on both sides, gives back exactly that core. */
  lemma TrimOfPadded(pre: string, core: string, post: string)
    requires forall i :: 0 <= i < |pre| ==> IsJsSpace(pre[i])
    requires forall i :: 0 <= i < |post| ==> IsJsSpace(post[i])
    requires core == [] || (!IsJsSpace(core[0]) && !IsJsSpace(core[|core| - 1]))
    ensures Trim(pre + core + post) == core
  {
    if core != [] {
      TrimEndOfPadded(pre + core, post);
      assert pre + core + post == (pre + core) + post;
      TrimStartOfPadded(pre, core);
    }
  }

  /** Text without outer space is left as it is. */
  lemma TrimOfTrimmed(x: string)
    requires x == [] || (!IsJsSpace(x[0]) && !IsJsSpace(x[|x| - 1]))
    ensures Trim(x) == x
  {
    if x != [] {
      assert x + [] == x && [] + x == x;
      TrimEndOfPadded(x, []);
      TrimStartOfPadded([], x);
    }
  }

  lemma {:induction false} TrimEndOfPadded(x: string, post: string)
    requires forall i :: 0 <= i < |post| ==> IsJsSpace(post[i])
    requires x != [] && !IsJsSpace(x[|x| - 1])
    ensures TrimEnd(x + post) == x
    decreases |post|
  {
    if post == [] {
      assert x + post == x;
    } else {
      var shorter := post[..|post| - 1];
      assert (x + post)[..|x + post| - 1] == x + shorter;
      TrimEndOfPadded(x, shorter);
    }
  }

  lemma {:induction false} TrimStartOfPadded(pre: string, y: string)
    requires forall i :: 0 <= i < |pre| ==> IsJsSpace(pre[i])
    requires y != [] && !IsJsSpace(y[0])
    ensures TrimStart(pre + y) == y
  {
    if pre == [] {
      assert pre + y == y;
    } else {
      assert (pre + y)[1..] == pre[1..] + y;
      TrimStartOfPadded(pre[1..], y);
    }
  }

  /** The upper-case form of an ASCII letter; every other character is kept. */
  function UpperChar(c: char): (u: char)
    ensures !('a' <= u <= 'z')
    ensures 'a' <= c <= 'z' ==> 'A' <= u <= 'Z' && u as int - c as int == 'A' as int - 'a' as int
    ensures !('a' <= c <= 'z') ==> u == c
    ensures IsJsSpace(u) == IsJsSpace(c)
  {
    if 'a' <= c <= 'z' then (c as int - 'a' as int + 'A' as int) as char else c
  }

  /** `toUpperCase` on the ASCII range: same length, no lower-case letter
      left, and every character that is not a lower-case letter kept. */
  function ToUpper(s: string): (r: string)
    ensures |r| == |s|
    ensures forall i :: 0 <= i < |r| ==> !('a' <= r[i] <= 'z')
    ensures forall i :: 0 <= i < |s| && !('a' <= s[i] <= 'z') ==> r[i] == s[i]
    ensures forall i :: 0 <= i < |s| ==> r[i] == UpperChar(s[i])
    ensures forall i :: 0 <= i < |s| ==> IsJsSpace(r[i]) == IsJsSpace(s[i])
  {
    if s == [] then [] else [UpperChar(s[0])] + ToUpper(s[1..])
  }

  /** Upper-casing keeps text without outer space free of it. */
  lemma ToUpperKeepsEdges(t: string)
    requires t == [] || (!IsJsSpace(t[0]) && !IsJsSpace(t[|t| - 1]))
    ensures var u := ToUpper(t); u == [] || (!IsJsSpace(u[0]) && !IsJsSpace(u[|u| - 1]))
  {
    var u := ToUpper(t);
    if u != [] {
      assert IsJsSpace(u[0]) == IsJsSpace(t[0]);
      assert IsJsSpace(u[|u| - 1]) == IsJsSpace(t[|t| - 1]);
    }
  }

  /** Upper-casing twice changes nothing more. */
  lemma {:induction false} ToUpperIdempotent(s: string)
    ensures ToUpper(ToUpper(s)) == ToUpper(s)
  {
    if s != [] {
      ToUpperIdempotent(s[1..]);
    }
  }
}
