/**
 * The string operations the catalog applies to file and folder names:
 * Python's `str.lower()`, `str.title()`, `str.replace()` and the `<=`
 * comparison used by `sorted`, restricted to ASCII letters.
 */
module Text {

  predicate IsUpper(c: char) { 'A' <= c <= 'Z' }

  predicate IsLower(c: char) { 'a' <= c <= 'z' }

  /** A cased character in the sense of `str.title()`; only ASCII letters are cased here. */
  predicate IsLetter(c: char) { IsUpper(c) || IsLower(c) }

  function LowerChar(c: char): (d: char)
    ensures IsLetter(d) == IsLetter(c)
    ensures !IsUpper(d)
    ensures !IsUpper(c) ==> d == c
  {
    if IsUpper(c) then (c as int + 32) as char else c
  }

  function UpperChar(c: char): (d: char)
    ensures IsLetter(d) == IsLetter(c)
    ensures !IsLower(d)
    ensures !IsLower(c) ==> d == c
    ensures LowerChar(d) == LowerChar(c)
  {
    if IsLower(c) then (c as int - 32) as char else c
  }

  /** `s.lower()` */
  function Lower(s: string): (r: string)
    ensures |r| == |s|
    ensures forall i :: 0 <= i < |r| ==> !IsUpper(r[i])
    ensures forall i :: 0 <= i < |s| ==> IsLetter(r[i]) == IsLetter(s[i])
    ensures forall i :: 0 <= i < |s| && !IsUpper(s[i]) ==> r[i] == s[i]
  {
    seq(|s|, i requires 0 <= i < |s| => LowerChar(s[i]))
  }

  lemma LowerIdempotent(s: string)
    ensures Lower(Lower(s)) == Lower(s)
  {
  }

  /** `s.replace(from, to)` for single characters: every occurrence is replaced. */
  function Replace(s: string, from: char, to: char): (r: string)
    ensures |r| == |s|
    ensures from != to ==> from !in r
    ensures forall i :: 0 <= i < |s| && s[i] != from ==> r[i] == s[i]
    ensures forall i :: 0 <= i < |s| && s[i] == from ==> r[i] == to
  {
    seq(|s|, i requires 0 <= i < |s| => if s[i] == from then to else s[i])
  }

  /**
   * `str.title()` as a left-to-right scan: a character that follows a cased
   * character is lower-cased, any other one is upper-cased.
   */
  function TitleFrom(s: string, afterLetter: bool): (r: string)
    ensures |r| == |s|
  {
    if s == [] then []
    else [if afterLetter then LowerChar(s[0]) else UpperChar(s[0])] + TitleFrom(s[1..], IsLetter(s[0]))
  }

  /** `s.title()` */
  function Title(s: string): (r: string)
    ensures |r| == |s|
  {
    TitleFrom(s, false)
  }

  /** The character a title-cased word starts with is upper, every later letter of the word is lower. */
  predicate TitleCharAt(s: string, r: string, i: int)
    requires 0 <= i < |s| == |r|
  {
    r[i] == if i > 0 && IsLetter(s[i - 1]) then LowerChar(s[i]) else UpperChar(s[i])
  }

  lemma {:induction false} TitleFromAt(s: string, afterLetter: bool, i: nat)
    requires i < |s|
    ensures TitleFrom(s, afterLetter)[i] ==
      if (if i == 0 then afterLetter else IsLetter(s[i - 1])) then LowerChar(s[i]) else UpperChar(s[i])
  {
    if i > 0 {
      TitleFromAt(s[1..], IsLetter(s[0]), i - 1);
    }
  }

  /** Each character of `s.title()` obeys the word-start rule. */
  lemma TitleAt(s: string)
    ensures forall i :: 0 <= i < |s| ==> TitleCharAt(s, Title(s), i)
  {
    forall i | 0 <= i < |s|
      ensures TitleCharAt(s, Title(s), i)
    {
      TitleFromAt(s, false, i);
    }
  }

  /** `t` is `s.title()` when each of its characters obeys the word-start rule. */
  lemma TitleIs(s: string, t: string)
    requires |t| == |s|
    requires forall i :: 0 <= i < |s| ==> TitleCharAt(s, t, i)
    ensures Title(s) == t
  {
    TitleAt(s);
    forall i | 0 <= i < |s|
      ensures Title(s)[i] == t[i]
    {
      assert TitleCharAt(s, Title(s), i) && TitleCharAt(s, t, i);
    }
  }

  /**
   * Title-casing changes only the case of letters: the text is the same up to
   * case, and every character that is not a letter is kept as it is.
   */
  lemma TitleKeepsText(s: string)
    ensures |Title(s)| == |s|
    ensures Lower(Title(s)) == Lower(s)
    ensures forall i :: 0 <= i < |s| && !IsLetter(s[i]) ==> Title(s)[i] == s[i]
    ensures forall i :: 0 <= i < |s| ==> IsLetter(Title(s)[i]) == IsLetter(s[i])
    ensures forall c :: !IsLetter(c) ==> (c in Title(s) <==> c in s)
  {
    TitleAt(s);
    var t := Title(s);
    forall i | 0 <= i < |s|
      ensures LowerChar(t[i]) == LowerChar(s[i])
      ensures !IsLetter(s[i]) ==> t[i] == s[i]
      ensures IsLetter(t[i]) == IsLetter(s[i])
    {
      assert TitleCharAt(s, t, i);
    }
    forall c | !IsLetter(c)
      ensures c in t <==> c in s
    {
      if c in t {
        var i :| 0 <= i < |t| && t[i] == c;
        assert IsLetter(t[i]) == IsLetter(s[i]);
      }
      if c in s {
        var i :| 0 <= i < |s| && s[i] == c;
      }
    }
  }

  /** Title-casing a title-cased string changes nothing. */
  lemma TitleIdempotent(s: string)
    ensures Title(Title(s)) == Title(s)
  {
    var t := Title(s);
    TitleAt(s);
    TitleAt(t);
    forall i | 0 <= i < |s|
      ensures Title(t)[i] == t[i]
    {
      assert TitleCharAt(s, t, i);
      assert TitleCharAt(t, Title(t), i);
      if i > 0 {
        assert TitleCharAt(s, t, i - 1);
      }
    }
  }

  /** Python's `a <= b` on strings: lexicographic by code point. */
  predicate LexLe(a: string, b: string)
  {
    a == [] || (b != [] && (a[0] < b[0] || (a[0] == b[0] && LexLe(a[1..], b[1..]))))
  }

  lemma {:induction false} LexLeRefl(a: string)
    ensures LexLe(a, a)
  {
    if a != [] {
      LexLeRefl(a[1..]);
    }
  }

  lemma {:induction false} LexLeTotal(a: string, b: string)
    ensures LexLe(a, b) || LexLe(b, a)
  {
    if a != [] && b != [] && a[0] == b[0] {
      LexLeTotal(a[1..], b[1..]);
    }
  }

  lemma {:induction false} LexLeTrans(a: string, b: string, c: string)
    requires LexLe(a, b) && LexLe(b, c)
    ensures LexLe(a, c)
  {
    if a != [] && b != [] && c != [] && a[0] == b[0] == c[0] {
      LexLeTrans(a[1..], b[1..], c[1..]);
    }
  }

  lemma {:induction false} LexLeAntisym(a: string, b: string)
    requires LexLe(a, b) && LexLe(b, a)
    ensures a == b
  {
    if a != [] && b != [] {
      LexLeAntisym(a[1..], b[1..]);
      assert a == [a[0]] + a[1..];
      assert b == [b[0]] + b[1..];
    }
  }

  /** Strings compare at their first difference. */
  lemma {:induction false} LexLeAtDifference(a: string, b: string, i: nat)
    requires i < |a| && i < |b| && a[..i] == b[..i] && a[i] < b[i]
    ensures LexLe(a, b) && !LexLe(b, a)
  {
    if i > 0 {
      assert a[0] == a[..i][0] == b[..i][0] == b[0];
      assert a[1..][..i - 1] == a[..i][1..] == b[..i][1..] == b[1..][..i - 1];
      LexLeAtDifference(a[1..], b[1..], i - 1);
    }
  }
}
