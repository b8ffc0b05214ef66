/** Splitting, trimming and joining strings as the Rust standard library does. */
module Text {

  /** `str::split`: the pieces between separators, always at least one. */
  function Split(s: string, sep: char): (parts: seq<string>)
    ensures parts != []
    ensures forall p :: p in parts ==> sep !in p
  {
    if s == "" then [""]
    else
      var rest := Split(s[1..], sep);
      if s[0] == sep then [""] + rest else [[s[0]] + rest[0]] + rest[1..]
  }

  function Join(parts: seq<string>, sep: char): string {
    if parts == [] then ""
    else if |parts| == 1 then parts[0]
    else parts[0] + [sep] + Join(parts[1..], sep)
  }

  /** A piece without separators, followed by a separator. */
  lemma {:induction false} SplitCons(p: string, s: string, sep: char)
    requires sep !in p
    ensures Split(p + [sep] + s, sep) == [p] + Split(s, sep)
  {
    if p == "" {
      assert p + [sep] + s == [sep] + s;
      assert ([sep] + s)[1..] == s;
    } else {
      assert p[0] in p;
      assert sep !in p[1..];
      SplitCons(p[1..], s, sep);
      assert (p + [sep] + s)[1..] == p[1..] + [sep] + s;
      assert [p[0]] + p[1..] == p;
    }
  }

  lemma {:induction false} SplitWhole(p: string, sep: char)
    requires sep !in p
    ensures Split(p, sep) == [p]
  {
    if p != "" {
      assert p[0] in p;
      assert sep !in p[1..];
      SplitWhole(p[1..], sep);
      assert [p[0]] + p[1..] == p;
    }
  }

  /** Splitting inverts joining. */
  lemma {:induction false} SplitJoin(parts: seq<string>, sep: char)
    requires parts != [] && forall p :: p in parts ==> sep !in p
    ensures Split(Join(parts, sep), sep) == parts
  {
    assert parts[0] in parts;
    if |parts| == 1 {
      SplitWhole(parts[0], sep);
    } else {
      forall p | p in parts[1..] ensures sep !in p { assert p in parts; }
      SplitJoin(parts[1..], sep);
      SplitCons(parts[0], Join(parts[1..], sep), sep);
      assert [parts[0]] + parts[1..] == parts;
    }
  }

  /** `char::is_whitespace`: the Unicode White_Space property. */
  predicate IsSpace(c: char) {
    || '\U{9}' <= c <= '\U{D}' || c == ' ' || c == '\U{85}' || c == '\U{A0}' || c == '\U{1680}'
    || '\U{2000}' <= c <= '\U{200A}' || c == '\U{2028}' || c == '\U{2029}' || c == '\U{202F}'
    || c == '\U{205F}' || c == '\U{3000}'
  }

  /** The characters that count as white space, one by one. */
  lemma SpacesListed(c: char)
    ensures IsSpace(c) <==>
      c in "\t\n\U{B}\U{C}\r \U{85}\U{A0}\U{1680}\U{2000}\U{2001}\U{2002}\U{2003}\U{2004}\U{2005}"
      || c in "\U{2006}\U{2007}\U{2008}\U{2009}\U{200A}\U{2028}\U{2029}\U{202F}\U{205F}\U{3000}"
  {
  }

  function TrimStart(s: string): string {
    if s != "" && IsSpace(s[0]) then TrimStart(s[1..]) else s
  }

  function TrimEnd(s: string): string {
    if s != "" && IsSpace(s[|s| - 1]) then TrimEnd(s[..|s| - 1]) else s
  }

  function Trim(s: string): string { TrimEnd(TrimStart(s)) }

  function LowerChar(c: char): char { if 'A' <= c <= 'Z' then (c as int + 32) as char else c }

  /** ASCII lower case. */
  function Lower(s: string): string { seq(|s|, i requires 0 <= i < |s| => LowerChar(s[i])) }

  lemma LowerFixed(s: string)
    requires forall c :: c in s ==> !('A' <= c <= 'Z')
    ensures Lower(s) == s
  {
    assert forall i :: 0 <= i < |s| ==> s[i] in s;
  }

  /** Two letters that differ in case only. */
  predicate CasePair(upper: char, lower: char) { 'A' <= upper <= 'Z' && lower as int == upper as int + 32 }

  /** Equal but for the case of ASCII letters. */
  predicate SameButCase(a: string, b: string) {
    && |a| == |b|
    && forall i :: 0 <= i < |a| ==> a[i] == b[i] || CasePair(a[i], b[i]) || CasePair(b[i], a[i])
  }

  /** Lowering forgets just the case. */
  lemma LowerEqualIff(a: string, b: string)
    ensures Lower(a) == Lower(b) <==> SameButCase(a, b)
  {
    if Lower(a) == Lower(b) {
      assert |a| == |Lower(a)| == |b|;
      forall i | 0 <= i < |a| ensures a[i] == b[i] || CasePair(a[i], b[i]) || CasePair(b[i], a[i]) {
        assert LowerChar(a[i]) == Lower(a)[i] == Lower(b)[i] == LowerChar(b[i]);
      }
    }
  }

  /** A text reads as a lower-case word exactly when it is that word in some case. */
  lemma LowerIsIff(s: string, word: string)
    requires forall c :: c in word ==> !('A' <= c <= 'Z')
    ensures Lower(s) == word <==> SameButCase(s, word)
  {
    LowerFixed(word);
    LowerEqualIff(s, word);
  }

  // ---------------------------------------------------------------- what trimming removes

  ghost predicate Blank(s: string) { forall c :: c in s ==> IsSpace(c) }

  /** Nothing to trim: neither end is a space. */
  predicate Trimmed(s: string) { s == "" || (!IsSpace(s[0]) && !IsSpace(s[|s| - 1])) }

  lemma {:induction false} TrimStartBlank(p: string, s: string)
    requires Blank(p) && (s == "" || !IsSpace(s[0]))
    ensures TrimStart(p + s) == s
  {
    if p == "" {
      assert p + s == s;
    } else {
      assert p[0] in p && (p + s)[1..] == p[1..] + s;
      TrimStartBlank(p[1..], s);
    }
  }

  lemma {:induction false} TrimEndBlank(s: string, q: string)
    requires Blank(q) && (s == "" || !IsSpace(s[|s| - 1]))
    ensures TrimEnd(s + q) == s
  {
    if q == "" {
      assert s + q == s;
    } else {
      assert q[|q| - 1] in q && (s + q)[..|s + q| - 1] == s + q[..|q| - 1];
      TrimEndBlank(s, q[..|q| - 1]);
    }
  }

  lemma TrimBlank(p: string)
    requires Blank(p)
    ensures Trim(p) == ""
  {
    TrimStartBlank(p, "");
    assert p + "" == p;
  }

  /** Trimming takes exactly the white space around a text. */
  lemma TrimSurrounded(p: string, s: string, q: string)
    requires Blank(p) && Blank(q) && Trimmed(s)
    ensures Trim(p + s + q) == s
  {
    if s == "" {
      assert forall c :: c in p + s + q ==> c in p || c in q;
      TrimBlank(p + s + q);
    } else {
      assert p + s + q == p + (s + q) && (s + q)[0] == s[0];
      TrimStartBlank(p, s + q);
      TrimEndBlank(s, q);
    }
  }
}
