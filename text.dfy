/** Character classes and the `str` library operations the shell relies on
    (`split_whitespace`, `find`, `split`, `starts_with`, `ends_with`, `contains`),
    stated over `string == seq<char>`. */
module Text {
  import opened Io

  /** `char::is_whitespace`: the characters with the Unicode White_Space property. */
  predicate IsWhitespace(c: char) {
    var n := c as int;
    (0x09 <= n <= 0x0D) || n == 0x20 || n == 0x85 || n == 0xA0 || n == 0x1680
    || (0x2000 <= n <= 0x200A) || n == 0x2028 || n == 0x2029 || n == 0x202F
    || n == 0x205F || n == 0x3000
  }

  /** `char::is_alphanumeric`, restricted to ASCII letters and digits. */
  predicate IsAlphanumeric(c: char) {
    ('a' <= c <= 'z') || ('A' <= c <= 'Z') || ('0' <= c <= '9')
  }

  predicate NoWhitespace(s: string) {
    forall i :: 0 <= i < |s| ==> !IsWhitespace(s[i])
  }

  // ---------------------------------------------------------------------------
  // split_whitespace

  /** `str::split_whitespace`: the maximal runs of non-whitespace characters, in order. */
  function Words(s: string): (ws: seq<string>)
    ensures forall k :: 0 <= k < |ws| ==> ws[k] != [] && NoWhitespace(ws[k])
  {
    WordsFrom(s, [])
  }

  /** The words of `s`, the first of them continuing the partial word `word`. */
  function WordsFrom(s: string, word: string): (ws: seq<string>)
    requires NoWhitespace(word)
    ensures forall k :: 0 <= k < |ws| ==> ws[k] != [] && NoWhitespace(ws[k])
    decreases |s|
  {
    if s == [] then
      (if word == [] then [] else [word])
    else if IsWhitespace(s[0]) then
      (if word == [] then [] else [word]) + WordsFrom(s[1..], [])
    else
      WordsFrom(s[1..], word + [s[0]])
  }

  function Flatten(ws: seq<string>): string {
    if ws == [] then [] else ws[0] + Flatten(ws[1..])
  }

  /** The characters of `s` that are not whitespace, in order. */
  function NonWhitespace(s: string): string {
    if s == [] then []
    else if IsWhitespace(s[0]) then NonWhitespace(s[1..])
    else [s[0]] + NonWhitespace(s[1..])
  }

  lemma FlattenAppend(a: seq<string>, b: seq<string>)
    ensures Flatten(a + b) == Flatten(a) + Flatten(b)
  {
    if a == [] {
      assert a + b == b;
    } else {
      assert (a + b)[1..] == a[1..] + b;
      FlattenAppend(a[1..], b);
    }
  }

  /** Splitting into words loses exactly the whitespace: no character is dropped,
      duplicated or reordered. */
  lemma {:induction false} WordsKeepEveryOtherCharacter(s: string)
    ensures Flatten(Words(s)) == NonWhitespace(s)
  {
    WordsFromKeep(s, []);
  }

  lemma {:induction false} WordsFromKeep(s: string, word: string)
    requires NoWhitespace(word)
    ensures Flatten(WordsFrom(s, word)) == word + NonWhitespace(s)
    decreases |s|
  {
    if s == [] {
    } else if IsWhitespace(s[0]) {
      WordsFromKeep(s[1..], []);
      var head := if word == [] then [] else [word];
      FlattenAppend(head, WordsFrom(s[1..], []));
      assert Flatten(head) == word;
    } else {
      WordsFromKeep(s[1..], word + [s[0]]);
    }
  }

  /** A whitespace character always separates words: the words of `a + [w] + b`
      are the words of `a` followed by the words of `b`. */
  lemma {:induction false} WordsSplitAtWhitespace(a: string, w: char, b: string)
    requires IsWhitespace(w)
    ensures Words(a + [w] + b) == Words(a) + Words(b)
  {
    WordsFromSplit(a, [], w, b);
  }

  /** A non-empty run of non-whitespace characters is a single word. */
  lemma WordsOfWord(w: string)
    requires w != [] && NoWhitespace(w)
    ensures Words(w) == [w]
  {
    WordsFromWord(w, []);
    assert [] + w == w;
  }

  lemma {:induction false} WordsFromWord(w: string, word: string)
    requires NoWhitespace(w) && NoWhitespace(word) && word + w != []
    ensures WordsFrom(w, word) == [word + w]
    decreases |w|
  {
    if w == [] {
      assert word + w == word;
    } else {
      assert !IsWhitespace(w[0]);
      assert word + [w[0]] + w[1..] == word + w;
      WordsFromWord(w[1..], word + [w[0]]);
    }
  }

  /** A word, a blank and more text: the word, then the words of the text. */
  lemma WordThenBlank(w: string, rest: string)
    requires w != [] && NoWhitespace(w)
    ensures Words(w + " " + rest) == [w] + Words(rest)
  {
    assert IsWhitespace(' ');
    assert w + " " + rest == w + [' '] + rest;
    WordsSplitAtWhitespace(w, ' ', rest);
    WordsOfWord(w);
  }

  /** Every character of a word occurs in the text it was split from. */
  lemma WordsWithin(s: string, k: nat, c: char)
    requires k < |Words(s)| && c in Words(s)[k]
    ensures c in s
  {
    WordsKeepEveryOtherCharacter(s);
    FlattenHolds(Words(s), k, c);
    NonWhitespaceWithin(s, c);
  }

  lemma {:induction false} FlattenHolds(ws: seq<string>, k: nat, c: char)
    requires k < |ws| && c in ws[k]
    ensures c in Flatten(ws)
    decreases k
  {
    if k > 0 {
      FlattenHolds(ws[1..], k - 1, c);
    }
  }

  lemma {:induction false} NonWhitespaceWithin(s: string, c: char)
    requires c in NonWhitespace(s)
    ensures c in s
    decreases |s|
  {
    if s != [] && c !in [s[0]] {
      NonWhitespaceWithin(s[1..], c);
    }
  }

  /** A text holding a non-whitespace character holds a word. */
  lemma WordsOfNonBlank(s: string, i: nat)
    requires i < |s| && !IsWhitespace(s[i])
    ensures Words(s) != []
  {
    WordsKeepEveryOtherCharacter(s);
    NonWhitespaceNonEmpty(s, i);
  }

  lemma {:induction false} NonWhitespaceNonEmpty(s: string, i: nat)
    requires i < |s| && !IsWhitespace(s[i])
    ensures NonWhitespace(s) != []
    decreases i
  {
    if i > 0 && IsWhitespace(s[0]) {
      NonWhitespaceNonEmpty(s[1..], i - 1);
    }
  }

  lemma {:induction false} WordsFromSplit(a: string, word: string, w: char, b: string)
    requires NoWhitespace(word) && IsWhitespace(w)
    ensures WordsFrom(a + [w] + b, word) == WordsFrom(a, word) + WordsFrom(b, [])
    decreases |a|
  {
    if a == [] {
      assert (a + [w] + b)[1..] == b;
    } else {
      assert (a + [w] + b)[1..] == a[1..] + [w] + b;
      if IsWhitespace(a[0]) {
        WordsFromSplit(a[1..], [], w, b);
      } else {
        WordsFromSplit(a[1..], word + [a[0]], w, b);
      }
    }
  }

  // ---------------------------------------------------------------------------
  // find, starts_with, ends_with, contains

  /** `str::find(char)`: the index of the first occurrence of `c`. */
  function Find(s: string, c: char): (r: Option<nat>)
    ensures r.None? <==> c !in s
    ensures r.Some? ==> r.value < |s| && s[r.value] == c && c !in s[..r.value]
    decreases |s|
  {
    if s == [] then None
    else if s[0] == c then Some(0)
    else
      match Find(s[1..], c)
      case None => None
      case Some(i) =>
        assert s[..i + 1] == [s[0]] + s[1..][..i];
        Some(i + 1)
  }

  /** `p` occurs in `s` starting at index `i`. */
  predicate OccursAt(s: string, p: string, i: nat) {
    i + |p| <= |s| && s[i..i + |p|] == p
  }

  /** `str::find(&str)`: the index of the first occurrence of `p`. */
  function FindSub(s: string, p: string): (r: Option<nat>)
    ensures r.Some? ==> OccursAt(s, p, r.value)
    ensures r.Some? ==> forall j :: 0 <= j < r.value ==> !OccursAt(s, p, j)
    ensures r.None? ==> forall j :: 0 <= j <= |s| ==> !OccursAt(s, p, j)
  {
    FindSubFrom(s, p, 0)
  }

  function FindSubFrom(s: string, p: string, i: nat): (r: Option<nat>)
    requires i <= |s|
    ensures r.Some? ==> i <= r.value && OccursAt(s, p, r.value)
    ensures r.Some? ==> forall j :: i <= j < r.value ==> !OccursAt(s, p, j)
    ensures r.None? ==> forall j :: i <= j <= |s| ==> !OccursAt(s, p, j)
    decreases |s| - i
  {
    if OccursAt(s, p, i) then Some(i)
    else if i == |s| then None
    else FindSubFrom(s, p, i + 1)
  }

  /** The first `c` of `a + [c] + b` is the one after `a` when `a` has none. */
  lemma FindAfter(a: string, c: char, b: string)
    requires c !in a
    ensures Find(a + [c] + b, c) == Some(|a|)
  {
    var s := a + [c] + b;
    assert s[|a|] == c;
    assert s[..|a|] == a;
  }

  /** A pattern found at an index before which its first character never occurs is found
      there first. */
  lemma FindSubAtFirstChar(s: string, p: string, i: nat)
    requires |p| > 0 && i + |p| <= |s| && p[0] !in s[..i] && OccursAt(s, p, i)
    ensures FindSub(s, p) == Some(i)
  {
    var j := FindSub(s, p);
    assert j.Some?;
  }

  /** `str::starts_with`. */
  predicate StartsWith(s: string, p: string) {
    |p| <= |s| && s[..|p|] == p
  }

  /** `str::ends_with`. */
  predicate EndsWith(s: string, p: string) {
    |p| <= |s| && s[|s| - |p|..] == p
  }

  /** `str::contains(&str)`. */
  predicate Contains(s: string, p: string) {
    exists j :: 0 <= j <= |s| && OccursAt(s, p, j)
  }

  // ---------------------------------------------------------------------------
  // counting and splitting on one character

  function Count(s: string, c: char): nat {
    if s == [] then 0 else (if s[0] == c then 1 else 0) + Count(s[1..], c)
  }

  lemma {:induction false} CountAppend(a: string, b: string, c: char)
    ensures Count(a + b, c) == Count(a, c) + Count(b, c)
  {
    if a == [] {
      assert a + b == b;
    } else {
      assert (a + b)[1..] == a[1..] + b;
      CountAppend(a[1..], b, c);
    }
  }

  lemma {:induction false} CountAbsent(s: string, c: char)
    requires c !in s
    ensures Count(s, c) == 0
  {
    if s != [] {
      CountAbsent(s[1..], c);
    }
  }

  /** A prefix or a suffix never holds more copies of `c` than the whole. */
  lemma CountSlice(s: string, i: nat, c: char)
    requires i <= |s|
    ensures Count(s[..i], c) <= Count(s, c) && Count(s[i..], c) <= Count(s, c)
  {
    assert s == s[..i] + s[i..];
    CountAppend(s[..i], s[i..], c);
  }

  /** The pieces of `parts` separated by one `sep` each (the inverse of `SplitOn`). */
  function JoinWith(parts: seq<string>, sep: char): string
    requires |parts| > 0
  {
    if |parts| == 1 then parts[0] else parts[0] + [sep] + JoinWith(parts[1..], sep)
  }

  /** `str::split(char)`: the pieces between occurrences of `sep`; always at least one. */
  function SplitOn(s: string, sep: char): (parts: seq<string>)
    ensures |parts| == Count(s, sep) + 1
    ensures forall k :: 0 <= k < |parts| ==> sep !in parts[k]
    ensures JoinWith(parts, sep) == s
    decreases |s|
  {
    match Find(s, sep)
    case None =>
      CountAbsent(s, sep);
      [s]
    case Some(i) =>
      var rest := SplitOn(s[i + 1..], sep);
      assert s == s[..i] + [sep] + s[i + 1..];
      CountAbsent(s[..i], sep);
      CountAppend(s[..i] + [sep], s[i + 1..], sep);
      CountAppend(s[..i], [sep], sep);
      assert ([s[..i]] + rest)[1..] == rest;
      [s[..i]] + rest
  }

  /** A character that is neither the separator nor in any piece is not in their join. */
  lemma {:induction false} JoinWithout(parts: seq<string>, sep: char, c: char)
    requires |parts| > 0 && c != sep
    requires forall k :: 0 <= k < |parts| ==> c !in parts[k]
    ensures c !in JoinWith(parts, sep)
  {
    if |parts| > 1 {
      JoinWithout(parts[1..], sep, c);
    }
  }

  /** Splitting at a first separator found at `|head|`: the head, then the split of the
      tail. */
  lemma SplitOnAfter(head: string, sep: char, tail: string)
    requires sep !in head
    ensures SplitOn(head + [sep] + tail, sep) == [head] + SplitOn(tail, sep)
  {
    var s := head + [sep] + tail;
    FindAfter(head, sep, tail);
    assert s[..|head|] == head && s[|head| + 1..] == tail;
  }

  /** Splitting the pieces joined by `sep` gives back the pieces, when none holds `sep`. */
  lemma {:induction false} SplitOnJoinWith(parts: seq<string>, sep: char)
    requires |parts| > 0
    requires forall k :: 0 <= k < |parts| ==> sep !in parts[k]
    ensures SplitOn(JoinWith(parts, sep), sep) == parts
  {
    if |parts| > 1 {
      var tail := parts[1..];
      assert forall k :: 0 <= k < |tail| ==> sep !in tail[k] by {
        assert forall k :: 0 <= k < |tail| ==> tail[k] == parts[k + 1];
      }
      SplitOnJoinWith(tail, sep);
      assert sep !in parts[0];
      SplitOnAfter(parts[0], sep, JoinWith(tail, sep));
      assert parts == [parts[0]] + tail;
    }
  }

  /** Only one prefix of `s` is free of whitespace and followed by whitespace or the end. */
  lemma WordBeforeWhitespaceUnique(s: string, x: string, y: string)
    requires StartsWith(s, x) && NoWhitespace(x) && (|x| == |s| || IsWhitespace(s[|x|]))
    requires StartsWith(s, y) && NoWhitespace(y) && (|y| == |s| || IsWhitespace(s[|y|]))
    ensures x == y
  {
    assert x == s[..|x|] && y == s[..|y|];
  }

  /** `str::split_once(char::is_whitespace)`, falling back to `(s, "")` when `s` has no
      whitespace: the text before the first whitespace character, and the text after it. */
  function SplitOnceWhitespace(s: string): (r: (string, string))
    ensures NoWhitespace(r.0)
    ensures r.0 == s || (|r.0| < |s| && IsWhitespace(s[|r.0|]) && r.1 == s[|r.0| + 1..])
    ensures r.0 == s ==> r.1 == []
    ensures StartsWith(s, r.0)
    decreases |s|
  {
    if s == [] then ([], [])
    else if IsWhitespace(s[0]) then ([], s[1..])
    else
      var (a, b) := SplitOnceWhitespace(s[1..]);
      ([s[0]] + a, b)
  }
}
