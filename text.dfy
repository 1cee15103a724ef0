/** The string operations the recommenders use: Python's `str.split()`,
    `str.lower()`, `str.replace` of one character and the substring test
    `a in b`. */
module Text {

  /** The characters Python's `str.isspace()` accepts, by code point. */
  predicate IsSpace(c: char) {
    var k := c as int;
    k == 0x20 || 0x09 <= k <= 0x0D || 0x1C <= k <= 0x1F || k == 0x85 || k == 0xA0
    || k == 0x1680 || 0x2000 <= k <= 0x200A || k == 0x2028 || k == 0x2029
    || k == 0x202F || k == 0x205F || k == 0x3000
  }

  predicate SpaceFree(w: string) {
    forall i :: 0 <= i < |w| ==> !IsSpace(w[i])
  }

  /** A token `str.split()` can produce: non-empty, with no whitespace in it. */
  predicate IsWord(w: string) {
    w != [] && SpaceFree(w)
  }

  /** Splits `s` at runs of whitespace; `word` is the token read so far. */
  function Split(s: string, word: string): (r: seq<string>)
    requires SpaceFree(word)
    ensures forall t :: t in r ==> IsWord(t)
    decreases |s|
  {
    if s == [] then (if word == [] then [] else [word])
    else if IsSpace(s[0]) then (if word == [] then [] else [word]) + Split(s[1..], [])
    else Split(s[1..], word + [s[0]])
  }

  /** Python's `s.split()` with no separator. */
  function Tokens(s: string): seq<string> {
    Split(s, [])
  }

  /** Joins words with a separator character, as `sep.join(words)` does. */
  function Join(words: seq<string>, sep: char): string {
    if words == [] then []
    else if |words| == 1 then words[0]
    else words[0] + [sep] + Join(words[1..], sep)
  }

  lemma {:induction false} SplitWord(w: string, rest: string, word: string)
    requires SpaceFree(w) && SpaceFree(word)
    ensures SpaceFree(word + w)
    ensures Split(w + rest, word) == Split(rest, word + w)
  {
    if w != [] {
      assert (w + rest)[0] == w[0] && (w + rest)[1..] == w[1..] + rest;
      assert SpaceFree(word + [w[0]]);
      SplitWord(w[1..], rest, word + [w[0]]);
      assert word + [w[0]] + w[1..] == word + w;
    } else {
      assert w + rest == rest && word + w == word;
    }
  }

  /** Splitting a space-joined list of words gives the words back. */
  lemma {:induction false} TokensOfJoin(words: seq<string>)
    requires forall i :: 0 <= i < |words| ==> IsWord(words[i])
    ensures Tokens(Join(words, ' ')) == words
  {
    if |words| == 1 {
      SplitWord(words[0], [], []);
      assert words[0] + [] == words[0];
    } else if |words| > 1 {
      var rest := Join(words[1..], ' ');
      TokensOfJoin(words[1..]);
      assert words[0] + [' '] + rest == words[0] + ([' '] + rest);
      SplitWord(words[0], [' '] + rest, []);
      assert [] + words[0] == words[0];
      assert ([' '] + rest)[1..] == rest;
      assert words == [words[0]] + words[1..];
    }
  }

  lemma {:induction false} SplitEmpty(s: string, word: string)
    requires SpaceFree(word)
    ensures Split(s, word) == [] <==> word == [] && forall i :: 0 <= i < |s| ==> IsSpace(s[i])
    decreases |s|
  {
    if s != [] {
      assert SpaceFree([]);
      if IsSpace(s[0]) {
        SplitEmpty(s[1..], []);
        if word == [] {
          assert (forall i :: 0 <= i < |s| ==> IsSpace(s[i])) <==>
                 (forall i :: 0 <= i < |s[1..]| ==> IsSpace(s[1..][i])) by {
            forall i | 0 <= i < |s[1..]| ensures s[1..][i] == s[i + 1] { }
          }
        }
      } else {
        assert SpaceFree(word + [s[0]]);
        SplitEmpty(s[1..], word + [s[0]]);
      }
    }
  }

  /** A text has no tokens exactly when it is empty or all whitespace. */
  lemma TokensEmpty(s: string)
    ensures Tokens(s) == [] <==> forall i :: 0 <= i < |s| ==> IsSpace(s[i])
  {
    SplitEmpty(s, []);
  }

  /** `str.replace(from, to)` for single characters: every occurrence. */
  function Replace(s: string, from: char, to: char): (r: string)
    ensures |r| == |s|
    ensures forall i :: 0 <= i < |s| ==> (s[i] == from ==> r[i] == to) && (s[i] != from ==> r[i] == s[i])
  {
    seq(|s|, i requires 0 <= i < |s| => if s[i] == from then to else s[i])
  }

  /** Replacing the separator of a joined list re-joins it with the new one. */
  lemma {:induction false} ReplaceJoin(words: seq<string>, from: char, to: char)
    requires forall i, j :: 0 <= i < |words| && 0 <= j < |words[i]| ==> words[i][j] != from
    ensures Replace(Join(words, from), from, to) == Join(words, to)
  {
    if |words| == 1 {
      assert Replace(words[0], from, to) == words[0];
    } else if |words| > 1 {
      ReplaceJoin(words[1..], from, to);
      var a := words[0];
      var b := Join(words[1..], from);
      assert Replace(a + [from] + b, from, to) == Replace(a, from, to) + [to] + Replace(b, from, to);
      assert Replace(a, from, to) == a;
    }
  }

  /** ASCII lower-casing of one character. */
  function LowerChar(c: char): char {
    if 'A' <= c <= 'Z' then (c as int + 32) as char else c
  }

  /** `str.lower()`, restricted to ASCII letters. */
  function Lower(s: string): (r: string)
    ensures |r| == |s|
    ensures forall i :: 0 <= i < |s| ==> !('A' <= r[i] <= 'Z')
    ensures forall i :: 0 <= i < |s| ==> !('A' <= s[i] <= 'Z') ==> r[i] == s[i]
    ensures forall i :: 0 <= i < |s| && 'A' <= s[i] <= 'Z' ==> r[i] == (s[i] as int + 32) as char
  {
    seq(|s|, i requires 0 <= i < |s| => LowerChar(s[i]))
  }

  /** `needle` occurs in `hay` starting at position `i`. */
  predicate OccursAt(hay: string, needle: string, i: int) {
    0 <= i <= |hay| - |needle| && hay[i..i + |needle|] == needle
  }

  /** Python's `needle in hay` for strings. */
  function Contains(hay: string, needle: string): (r: bool)
    ensures r <==> exists i :: OccursAt(hay, needle, i)
    decreases |hay|
  {
    if |needle| > |hay| then false
    else if hay[..|needle|] == needle then (assert OccursAt(hay, needle, 0); true)
    else
      var r := Contains(hay[1..], needle);
      assert r ==> exists i :: OccursAt(hay, needle, i) by {
        if r {
          var i :| OccursAt(hay[1..], needle, i);
          assert hay[i + 1..i + 1 + |needle|] == hay[1..][i..i + |needle|];
          assert OccursAt(hay, needle, i + 1);
        }
      }
      assert (exists i :: OccursAt(hay, needle, i)) ==> r by {
        if exists i :: OccursAt(hay, needle, i) {
          var i :| OccursAt(hay, needle, i);
          assert i != 0;
          assert hay[1..][i - 1..i - 1 + |needle|] == hay[i..i + |needle|];
          assert OccursAt(hay[1..], needle, i - 1);
        }
      }
      r
  }
}
