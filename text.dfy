/** The JavaScript string operations the core relies on: `trim`, `includes`,
    `split(c)[0]`, `indexOf`/`substring`, `join`, and decimal rendering of
    a number inside a template string. */
module Text {

  /** The characters `String.prototype.trim` strips: white space and line terminators. */
  predicate IsSpace(c: char)
  {
    || c == ' ' || c == '\t' || c == '\n' || c == '\r'
    || c == '\U{000B}' || c == '\U{000C}' || c == '\U{00A0}' || c == '\U{1680}'
    || ('\U{2000}' <= c <= '\U{200A}')
    || c == '\U{2028}' || c == '\U{2029}' || c == '\U{202F}' || c == '\U{205F}'
    || c == '\U{3000}' || c == '\U{FEFF}'
  }

  /** `s` without its leading white space: a suffix of `s`. */
  function TrimStart(s: string): (r: string)
    ensures |r| <= |s| && r == s[|s| - |r|..]
    ensures forall i :: 0 <= i < |s| - |r| ==> IsSpace(s[i])
    ensures r == [] || !IsSpace(r[0])
  {
    if |s| > 0 && IsSpace(s[0]) then TrimStart(s[1..]) else s
  }

  /** `s` without its trailing white space: a prefix of `s`. */
  function TrimEnd(s: string): (r: string)
    ensures |r| <= |s| && r == s[..|r|]
    ensures forall i :: |r| <= i < |s| ==> IsSpace(s[i])
    ensures r == [] || !IsSpace(r[|r| - 1])
  {
    if |s| > 0 && IsSpace(s[|s| - 1]) then TrimEnd(s[..|s| - 1]) else s
  }

  /** `s.trim()`. */
  function Trim(s: string): string
  {
    TrimEnd(TrimStart(s))
  }

  /** What `trim` keeps: a contiguous piece of `s` that neither starts nor ends
      with white space, everything cut off on either side being white space,
      and nothing at all exactly when `s` is blank. */
  lemma TrimFacts(s: string)
    ensures var t := Trim(s);
      && (exists i :: OccursAt(s, t, i))
      && (t == [] || (!IsSpace(t[0]) && !IsSpace(t[|t| - 1])))
      && (t == [] <==> forall i :: 0 <= i < |s| ==> IsSpace(s[i]))
  {
    var a := TrimStart(s);
    var t := TrimEnd(a);
    var i := |s| - |a|;
    assert OccursAt(s, t, i);
    if t == [] {
      assert a == [];
    } else {
      assert t[0] == a[0] == s[i];
    }
    assert t == Trim(s) && OccursAt(s, Trim(s), i);
  }

  /** Trimming adds no character: one absent from `s` is absent from `Trim(s)`. */
  lemma TrimKeepsOut(s: string, c: char)
    requires c !in s
    ensures c !in Trim(s)
  {
    TrimFacts(s);
    var t := Trim(s);
    var i :| OccursAt(s, t, i);
    forall k | 0 <= k < |t| ensures t[k] != c {
      assert t[k] == s[i + k];
    }
  }

  /** A piece of a prefix of `text` is a piece of `text`. */
  lemma OccursInPrefix(text: string, n: nat, t: string, i: int)
    requires n <= |text| && OccursAt(text[..n], t, i)
    ensures OccursAt(text, t, i)
  {
    assert text[i..i + |t|] == text[..n][i..i + |t|];
  }

  /** `text.split(c)[0].trim()`: empty exactly when the first segment is
      blank, and otherwise a piece of `text` without `c` and without outer
      white space. */
  lemma FirstSegment(text: string, c: char)
    ensures var t := Trim(BeforeFirst(text, c));
      && c !in t
      && (t == "" <==> IsBlank(BeforeFirst(text, c)))
      && (t != "" ==> !IsSpace(t[0]) && !IsSpace(t[|t| - 1]) && exists i :: OccursAt(text, t, i))
  {
    var seg := BeforeFirst(text, c);
    var t := Trim(seg);
    TrimFacts(seg);
    TrimKeepsOut(seg, c);
    if t != "" {
      var i :| OccursAt(seg, t, i);
      OccursInPrefix(text, |seg|, t, i);
    }
  }

  /** A falsy `trim()`: nothing but white space, so that the trimmed text is
      empty (`TrimFacts`). */
  predicate IsBlank(s: string)
  {
    forall i :: 0 <= i < |s| ==> IsSpace(s[i])
  }

  /** `p` is a prefix of `s`. */
  predicate StartsWith(s: string, p: string)
  {
    |p| <= |s| && s[..|p|] == p
  }

  /** `p` occurs in `s` starting at position `i`. */
  predicate OccursAt(s: string, p: string, i: int)
  {
    0 <= i <= |s| - |p| && s[i..i + |p|] == p
  }

  /** `s.includes(p)`: `p` occurs somewhere in `s`. */
  predicate Contains(s: string, p: string)
    decreases |s|
  {
    StartsWith(s, p) || (|s| > 0 && Contains(s[1..], p))
  }

  /** `Contains` is the occurrence of `p` at some position of `s`. */
  lemma {:induction false} ContainsAt(s: string, p: string)
    ensures Contains(s, p) <==> exists i :: OccursAt(s, p, i)
    decreases |s|
  {
    if StartsWith(s, p) {
      assert OccursAt(s, p, 0);
    } else if |s| > 0 {
      ContainsAt(s[1..], p);
      if exists i :: OccursAt(s, p, i) {
        var i :| OccursAt(s, p, i);
        assert i > 0;
        assert s[1..][i - 1..i - 1 + |p|] == s[i..i + |p|];
        assert OccursAt(s[1..], p, i - 1);
      }
      if Contains(s[1..], p) {
        var i :| OccursAt(s[1..], p, i);
        assert s[i + 1..i + 1 + |p|] == s[1..][i..i + |p|];
        assert OccursAt(s, p, i + 1);
      }
    } else {
      assert |p| > 0;
    }
  }

  /** `s.split(c)[0]`, and equally `s.substring(0, s.indexOf(c))` when `c`
      occurs: the text before the first `c`, or all of `s`. */
  function BeforeFirst(s: string, c: char): (r: string)
    ensures |r| <= |s| && r == s[..|r|]
    ensures c !in r
    ensures |r| < |s| ==> s[|r|] == c
  {
    if s == [] || s[0] == c then [] else [s[0]] + BeforeFirst(s[1..], c)
  }

  /** `parts.join(sep)`. */
  function Join(sep: string, parts: seq<string>): (r: string)
    ensures parts == [] ==> r == ""
    ensures |parts| > 0 ==> |r| >= |parts[0]|
    ensures forall c :: c in r ==> c in sep || exists i :: 0 <= i < |parts| && c in parts[i]
  {
    if parts == [] then ""
    else if |parts| == 1 then parts[0]
    else parts[0] + sep + Join(sep, parts[1..])
  }

  /** The decimal digits of `n`, as a template string renders a number. */
  function Decimal(n: nat): (r: string)
    ensures |r| > 0
    ensures forall i :: 0 <= i < |r| ==> '0' <= r[i] <= '9'
  {
    var d := ['0' + (n % 10) as char];
    if n < 10 then d else Decimal(n / 10) + d
  }
}
