/** ASCII string operations of the Rust standard library used across the crates. */
module Text {

  datatype Option<+T> = None | Some(value: T) {
    function Or(other: T): T { if Some? then value else other }
    predicate IsFailure() { None? }
    function PropagateFailure<U>(): Option<U> requires None? { None }
    function Extract(): T requires Some? { value }
  }

  datatype Result<+T, +E> = Ok(value: T) | Err(error: E)

  function LowerChar(c: char): char {
    if 'A' <= c <= 'Z' then (c as int + 32) as char else c
  }

  function ToLower(s: string): (r: string)
    ensures |r| == |s| && forall i :: 0 <= i < |s| ==> r[i] == LowerChar(s[i])
  {
    seq(|s|, i requires 0 <= i < |s| => LowerChar(s[i]))
  }

  function UpperChar(c: char): char {
    if 'a' <= c <= 'z' then (c as int - 32) as char else c
  }

  function ToUpper(s: string): (r: string)
    ensures |r| == |s| && forall i :: 0 <= i < |s| ==> r[i] == UpperChar(s[i])
  {
    seq(|s|, i requires 0 <= i < |s| => UpperChar(s[i]))
  }

  /** Letters keep their place in the alphabet; nothing else changes. */
  lemma LetterCase(c: char)
    ensures 'A' <= c <= 'Z' ==> LowerChar(c) as int - 'a' as int == c as int - 'A' as int
    ensures 'a' <= c <= 'z' ==> UpperChar(c) as int - 'A' as int == c as int - 'a' as int
    ensures !('A' <= c <= 'Z') ==> LowerChar(c) == c
    ensures !('a' <= c <= 'z') ==> UpperChar(c) == c
  {
  }

  function StripPrefix(s: string, p: string): Option<string> {
    if p <= s then Some(s[|p|..]) else None
  }

  predicate HasSuffix(s: string, p: string) {
    |p| <= |s| && s[|s| - |p|..] == p
  }

  function StripSuffix(s: string, p: string): Option<string> {
    if HasSuffix(s, p) then Some(s[..|s| - |p|]) else None
  }

  /** ASCII white space. */
  predicate IsSpace(c: char) { c == ' ' || '\t' <= c <= '\r' }

  lemma SpaceCodes(c: char)
    ensures IsSpace(c) <==> c as int in {9, 10, 11, 12, 13, 32}
  {
  }

  function TrimStart(s: string): string {
    if s != "" && IsSpace(s[0]) then TrimStart(s[1..]) else s
  }

  function TrimEnd(s: string): string {
    if s != "" && IsSpace(s[|s| - 1]) then TrimEnd(s[..|s| - 1]) else s
  }

  function Trim(s: string): string { TrimEnd(TrimStart(s)) }

  predicate Blank(s: string) { forall i :: 0 <= i < |s| ==> IsSpace(s[i]) }

  lemma {:induction false} TrimStartBlank(s: string)
    ensures TrimStart(s) == "" <==> Blank(s)
    ensures TrimStart(s) != "" ==> !IsSpace(TrimStart(s)[0])
  {
    if s != "" && IsSpace(s[0]) {
      TrimStartBlank(s[1..]);
      assert s == [s[0]] + s[1..];
    }
  }

  lemma {:induction false} TrimEndNonBlank(s: string)
    requires s != "" && !IsSpace(s[0])
    ensures TrimEnd(s) != ""
  {
    if IsSpace(s[|s| - 1]) { TrimEndNonBlank(s[..|s| - 1]); }
  }

  /** Nothing is left after trimming exactly when there was only white space. */
  lemma TrimBlank(s: string)
    ensures Trim(s) == "" <==> Blank(s)
  {
    TrimStartBlank(s);
    if TrimStart(s) != "" { TrimEndNonBlank(TrimStart(s)); }
  }

  lemma {:induction false} TrimStartCuts(s: string) returns (cut: string)
    ensures s == cut + TrimStart(s) && Blank(cut)
  {
    if s != "" && IsSpace(s[0]) {
      var rest := TrimStartCuts(s[1..]);
      cut := [s[0]] + rest;
    } else {
      cut := "";
    }
  }

  lemma {:induction false} TrimEndCuts(s: string) returns (cut: string)
    ensures s == TrimEnd(s) + cut && Blank(cut) && (TrimEnd(s) != "" ==> !IsSpace(TrimEnd(s)[|TrimEnd(s)| - 1]))
  {
    if s != "" && IsSpace(s[|s| - 1]) {
      var rest := TrimEndCuts(s[..|s| - 1]);
      cut := rest + [s[|s| - 1]];
    } else {
      cut := "";
    }
  }

  /** Trimming cuts white space off both ends and leaves none there. */
  lemma TrimExact(s: string) returns (front: string, back: string)
    ensures s == front + Trim(s) + back && Blank(front) && Blank(back)
    ensures Trim(s) != "" ==> !IsSpace(Trim(s)[0]) && !IsSpace(Trim(s)[|Trim(s)| - 1])
  {
    var t := TrimStart(s);
    front := TrimStartCuts(s);
    back := TrimEndCuts(t);
    TrimStartBlank(s);
    if Trim(s) != "" { assert t[0] == Trim(s)[0]; }
  }

  lemma {:induction false} TrimStartSkips(blank: string, core: string)
    requires Blank(blank) && (core == "" || !IsSpace(core[0]))
    ensures TrimStart(blank + core) == core
  {
    if blank == "" {
      assert blank + core == core;
    } else {
      assert (blank + core)[1..] == blank[1..] + core;
      TrimStartSkips(blank[1..], core);
    }
  }

  lemma {:induction false} TrimEndSkips(core: string, blank: string)
    requires Blank(blank) && (core == "" || !IsSpace(core[|core| - 1]))
    ensures TrimEnd(core + blank) == core
  {
    if blank == "" {
      assert core + blank == core;
    } else {
      var n := |blank| - 1;
      assert (core + blank)[..|core + blank| - 1] == core + blank[..n];
      TrimEndSkips(core, blank[..n]);
    }
  }

  /** Text without white space at its ends is what trimming leaves. */
  lemma TrimSkips(front: string, core: string, back: string)
    requires Blank(front) && Blank(back) && core != "" && !IsSpace(core[0]) && !IsSpace(core[|core| - 1])
    ensures Trim(front + (core + back)) == core
  {
    TrimStartSkips(front, core + back);
    TrimEndSkips(core, back);
  }

  /** Index of the first `c` in `s`, or `|s|` when there is none. */
  function IndexOf(s: string, c: char): (i: nat)
    ensures i <= |s| && (i < |s| ==> s[i] == c) && c !in s[..i]
  {
    if s == [] || s[0] == c then 0
    else
      var i := IndexOf(s[1..], c);
      assert s[..i + 1] == [s[0]] + s[1..][..i];
      i + 1
  }

  /** The text up to a separator and the text after it. */
  function Token(s: string, sep: char): Option<(string, string)> {
    var i := IndexOf(s, sep);
    if i < |s| then Some((s[..i], s[i + 1..])) else None
  }

  lemma TokenSplits(t: string, sep: char, rest: string)
    requires sep !in t
    ensures Token(t + ([sep] + rest), sep) == Some((t, rest))
  {
    var s := t + ([sep] + rest);
    var i := IndexOf(s, sep);
    assert s[|t|] == sep && s[..|t|] == t && s[|t| + 1..] == rest;
    assert i == |t|;
  }

  /** The integers a string compares by (Rust compares strings byte by byte). */
  function Codes(s: string): (r: seq<int>)
    ensures |r| == |s| && forall i :: 0 <= i < |s| ==> r[i] == s[i] as int
  {
    seq(|s|, i requires 0 <= i < |s| => s[i] as int)
  }

  lemma CodesInjective(a: string, b: string)
    requires Codes(a) == Codes(b)
    ensures a == b
  {
    forall i | 0 <= i < |a| ensures a[i] == b[i] { assert Codes(a)[i] == Codes(b)[i]; }
  }
}
