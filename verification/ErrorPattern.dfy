/**
 The pattern the discovery script searches a TypeError message for
 (scripts/discover_param_names.py:95-96):

   missing \d+ required positional argument[s]*: '(\w+)'

 `MatchAt` is a deterministic scanner for one start position and `Search`
 returns the captured word of the leftmost match, as `re.search` does.
 `MatchesAt` defines the language of the pattern declaratively; the lemmas
 show the scanner accepts exactly that language. `\d` and `\w` are taken
 in their ASCII sense.
 */
module ErrorPattern {
  import opened Wrappers

  const Lead: string := "missing "
  const Middle: string := " required positional argument"
  const Opening: string := ": '"
  const Closing: char := '\''

  predicate IsDigit(c: char)
  {
    '0' <= c <= '9'
  }

  predicate IsWordChar(c: char)
  {
    ('a' <= c <= 'z') || ('A' <= c <= 'Z') || IsDigit(c) || c == '_'
  }

  /** The three repeated character classes of the pattern: `\d`, `[s]` and `\w`. */
  datatype CharClass = Digits | Esses | WordChars

  predicate InClass(c: char, cls: CharClass)
  {
    match cls
    case Digits => IsDigit(c)
    case Esses => c == 's'
    case WordChars => IsWordChar(c)
  }

  predicate AllIn(s: string, cls: CharClass)
  {
    forall k :: 0 <= k < |s| ==> InClass(s[k], cls)
  }

  /** msg holds lit at position i. */
  predicate StartsAt(msg: string, i: nat, lit: string)
  {
    i + |lit| <= |msg| && msg[i..i + |lit|] == lit
  }

  /** The end of the longest run of cls-characters starting at j. */
  function RunEnd(msg: string, j: nat, cls: CharClass): (e: nat)
    requires j <= |msg|
    ensures j <= e <= |msg|
    ensures forall k :: j <= k < e ==> InClass(msg[k], cls)
    ensures e == |msg| || !InClass(msg[e], cls)
    decreases |msg| - j
  {
    if j == |msg| || !InClass(msg[j], cls) then j else RunEnd(msg, j + 1, cls)
  }

  /** The pattern anchored at position i: the captured word, if it matches there. */
  function MatchAt(msg: string, i: nat): Option<string>
    requires i <= |msg|
  {
    if !StartsAt(msg, i, Lead) then None else MatchCount(msg, i + |Lead|)
  }

  /** `\d+ required positional argument`, then the rest, from position a. */
  function MatchCount(msg: string, a: nat): Option<string>
    requires a <= |msg|
  {
    var b := RunEnd(msg, a, Digits);
    if b == a || !StartsAt(msg, b, Middle) then None else MatchPlural(msg, b + |Middle|)
  }

  /** `[s]*: '`, then the rest, from position c. */
  function MatchPlural(msg: string, c: nat): Option<string>
    requires c <= |msg|
  {
    var d := RunEnd(msg, c, Esses);
    if !StartsAt(msg, d, Opening) then None else MatchWord(msg, d + |Opening|)
  }

  /** `(\w+)'` from position e: the captured word. */
  function MatchWord(msg: string, e: nat): Option<string>
    requires e <= |msg|
  {
    var f := RunEnd(msg, e, WordChars);
    if f == e || f == |msg| || msg[f] != Closing then None else Some(msg[e..f])
  }

  function Repeat(c: char, n: nat): (s: string)
    ensures |s| == n
    ensures forall k :: 0 <= k < n ==> s[k] == c
  {
    if n == 0 then [] else [c] + Repeat(c, n - 1)
  }

  /** The text matched by the pattern for given digits, number of trailing
      s's and captured word. */
  function Instance(digits: string, esses: nat, word: string): string
  {
    Lead + digits + Middle + Repeat('s', esses) + Opening + word + [Closing]
  }

  /** The pattern matches at position i of msg, capturing word. */
  ghost predicate MatchesAt(msg: string, i: nat, word: string)
  {
    && |word| > 0 && AllIn(word, WordChars)
    && exists digits: string, esses: nat ::
         |digits| > 0 && AllIn(digits, Digits) && StartsAt(msg, i, Instance(digits, esses, word))
  }

  lemma StartsAtJoin(msg: string, i: nat, x: string, y: string)
    requires StartsAt(msg, i, x) && StartsAt(msg, i + |x|, y)
    ensures StartsAt(msg, i, x + y)
  {
    assert msg[i..i + |x + y|] == msg[i..i + |x|] + msg[i + |x|..i + |x| + |y|];
  }

  lemma StartsAtSplit(msg: string, i: nat, x: string, y: string)
    requires StartsAt(msg, i, x + y)
    ensures StartsAt(msg, i, x) && StartsAt(msg, i + |x|, y)
  {
    assert msg[i..i + |x|] == (x + y)[..|x|];
    assert msg[i + |x|..i + |x| + |y|] == (x + y)[|x|..];
  }

  /** A run whose characters all belong to cls and that is followed by a
      character outside cls (or the end) is the longest run. */
  lemma RunEndAt(msg: string, j: nat, n: nat, cls: CharClass)
    requires j + n <= |msg|
    requires forall k :: j <= k < j + n ==> InClass(msg[k], cls)
    requires j + n == |msg| || !InClass(msg[j + n], cls)
    ensures RunEnd(msg, j, cls) == j + n
  {
  }

  /** The parts of one instance, located in msg. */
  lemma InstanceParts(msg: string, i: nat, digits: string, esses: nat, word: string)
    requires StartsAt(msg, i, Instance(digits, esses, word))
    ensures StartsAt(msg, i, Lead)
    ensures StartsAt(msg, i + |Lead|, digits)
    ensures StartsAt(msg, i + |Lead| + |digits|, Middle)
    ensures StartsAt(msg, i + |Lead| + |digits| + |Middle|, Repeat('s', esses))
    ensures StartsAt(msg, i + |Lead| + |digits| + |Middle| + esses, Opening)
    ensures StartsAt(msg, i + |Lead| + |digits| + |Middle| + esses + |Opening|, word)
    ensures StartsAt(msg, i + |Lead| + |digits| + |Middle| + esses + |Opening| + |word|, [Closing])
  {
    var s1 := Lead + digits;
    var s2 := s1 + Middle;
    var s3 := s2 + Repeat('s', esses);
    var s4 := s3 + Opening;
    var s5 := s4 + word;
    StartsAtSplit(msg, i, s5, [Closing]);
    StartsAtSplit(msg, i, s4, word);
    StartsAtSplit(msg, i, s3, Opening);
    StartsAtSplit(msg, i, s2, Repeat('s', esses));
    StartsAtSplit(msg, i, s1, Middle);
    StartsAtSplit(msg, i, Lead, digits);
  }

  /** What a successful scan establishes, position by position. */
  lemma MatchAtFacts(msg: string, i: nat)
    requires i <= |msg|
    requires MatchAt(msg, i).Some?
    ensures StartsAt(msg, i, Lead)
    ensures RunEnd(msg, i + |Lead|, Digits) > i + |Lead|
    ensures StartsAt(msg, RunEnd(msg, i + |Lead|, Digits), Middle)
    ensures StartsAt(msg, EssesEnd(msg, i), Opening)
    ensures WordEnd(msg, i) > EssesEnd(msg, i) + |Opening|
    ensures WordEnd(msg, i) < |msg| && msg[WordEnd(msg, i)] == Closing
    ensures MatchAt(msg, i).value == msg[EssesEnd(msg, i) + |Opening|..WordEnd(msg, i)]
  {
    var b := RunEnd(msg, i + |Lead|, Digits);
    assert MatchAt(msg, i) == MatchCount(msg, i + |Lead|);
    assert MatchCount(msg, i + |Lead|) == MatchPlural(msg, b + |Middle|);
    assert MatchPlural(msg, b + |Middle|) == MatchWord(msg, EssesEnd(msg, i) + |Opening|);
  }

  /** Where the run of s's ends, for a scan that got that far. */
  function EssesEnd(msg: string, i: nat): nat
    requires i <= |msg|
    requires MatchAt(msg, i).Some?
  {
    RunEnd(msg, RunEnd(msg, i + |Lead|, Digits) + |Middle|, Esses)
  }

  /** Where the captured word ends, for a scan that got that far. */
  function WordEnd(msg: string, i: nat): nat
    requires i <= |msg|
    requires MatchAt(msg, i).Some?
  {
    RunEnd(msg, EssesEnd(msg, i) + |Opening|, WordChars)
  }

  /** Every match the scanner reports is a match of the pattern. */
  lemma MatchAtSound(msg: string, i: nat)
    requires i <= |msg|
    requires MatchAt(msg, i).Some?
    ensures MatchesAt(msg, i, MatchAt(msg, i).value)
  {
    MatchAtFacts(msg, i);
    var b := RunEnd(msg, i + |Lead|, Digits);
    var d := EssesEnd(msg, i);
    var f := WordEnd(msg, i);
    InstanceJoin(msg, i, b, d, f);
    var digits, word := msg[i + |Lead|..b], msg[d + |Opening|..f];
    assert |digits| > 0 && AllIn(digits, Digits) && StartsAt(msg, i, Instance(digits, d - b - |Middle|, word));
  }

  /** A successful scan locates an instance of the pattern, position by position. */
  lemma InstanceJoin(msg: string, i: nat, b: nat, d: nat, f: nat)
    requires i + |Lead| < b && b + |Middle| <= d && d + |Opening| < f < |msg|
    requires StartsAt(msg, i, Lead)
    requires StartsAt(msg, b, Middle)
    requires forall k :: b + |Middle| <= k < d ==> msg[k] == 's'
    requires StartsAt(msg, d, Opening)
    requires msg[f] == Closing
    ensures StartsAt(msg, i, Instance(msg[i + |Lead|..b], d - b - |Middle|, msg[d + |Opening|..f]))
  {
    var digits, esses, word := msg[i + |Lead|..b], d - b - |Middle|, msg[d + |Opening|..f];
    var s1 := Lead + digits;
    var s2 := s1 + Middle;
    var s3 := s2 + Repeat('s', esses);
    var s4 := s3 + Opening;
    var s5 := s4 + word;
    StartsAtJoin(msg, i, Lead, digits);
    StartsAtJoin(msg, i, s1, Middle);
    assert msg[b + |Middle|..d] == Repeat('s', esses);
    StartsAtJoin(msg, i, s2, Repeat('s', esses));
    StartsAtJoin(msg, i, s3, Opening);
    StartsAtJoin(msg, i, s4, word);
    assert msg[f..f + 1] == [Closing];
    StartsAtJoin(msg, i, s5, [Closing]);
  }

  /** Every match of the pattern is found by the scanner, with the same word. */
  lemma MatchAtComplete(msg: string, i: nat, word: string)
    requires i <= |msg|
    requires MatchesAt(msg, i, word)
    ensures MatchAt(msg, i) == Some(word)
  {
    var digits: string, esses: nat :|
      |digits| > 0 && AllIn(digits, Digits) && StartsAt(msg, i, Instance(digits, esses, word));
    InstanceParts(msg, i, digits, esses, word);
    var b := i + |Lead| + |digits|;
    var d := b + |Middle| + esses;
    var f := d + |Opening| + |word|;
    assert msg[i + |Lead|..b] == digits;
    assert msg[b + |Middle|..d] == Repeat('s', esses);
    assert msg[d + |Opening|..f] == word;
    assert msg[f..f + 1] == [Closing];
    MatchAtWhen(msg, i, b, d, f);
  }

  /** The scanner accepts a text whose parts sit at the given positions. */
  lemma MatchAtWhen(msg: string, i: nat, b: nat, d: nat, f: nat)
    requires i + |Lead| < b && b + |Middle| <= d && d + |Opening| < f < |msg|
    requires StartsAt(msg, i, Lead)
    requires forall k :: i + |Lead| <= k < b ==> IsDigit(msg[k])
    requires StartsAt(msg, b, Middle)
    requires forall k :: b + |Middle| <= k < d ==> msg[k] == 's'
    requires StartsAt(msg, d, Opening)
    requires forall k :: d + |Opening| <= k < f ==> IsWordChar(msg[k])
    requires msg[f] == Closing
    ensures MatchAt(msg, i) == Some(msg[d + |Opening|..f])
  {
    CountStage(msg, i + |Lead|, b, d, f);
  }

  /** The count stage accepts digits up to b followed by the rest. */
  lemma CountStage(msg: string, a: nat, b: nat, d: nat, f: nat)
    requires a < b && b + |Middle| <= d && d + |Opening| < f < |msg|
    requires forall k :: a <= k < b ==> IsDigit(msg[k])
    requires StartsAt(msg, b, Middle)
    requires forall k :: b + |Middle| <= k < d ==> msg[k] == 's'
    requires StartsAt(msg, d, Opening)
    requires forall k :: d + |Opening| <= k < f ==> IsWordChar(msg[k])
    requires msg[f] == Closing
    ensures MatchCount(msg, a) == Some(msg[d + |Opening|..f])
  {
    assert msg[b] == Middle[0];
    RunEndAt(msg, a, b - a, Digits);
    PluralStage(msg, b + |Middle|, d, f);
  }

  /** The plural stage accepts s's up to d followed by the rest. */
  lemma PluralStage(msg: string, c: nat, d: nat, f: nat)
    requires c <= d && d + |Opening| < f < |msg|
    requires forall k :: c <= k < d ==> msg[k] == 's'
    requires StartsAt(msg, d, Opening)
    requires forall k :: d + |Opening| <= k < f ==> IsWordChar(msg[k])
    requires msg[f] == Closing
    ensures MatchPlural(msg, c) == Some(msg[d + |Opening|..f])
  {
    assert msg[d] == Opening[0];
    RunEndAt(msg, c, d - c, Esses);
    var e := d + |Opening|;
    RunEndAt(msg, e, f - e, WordChars);
  }

  /** The pattern matches at position i exactly when the scanner says so. */
  lemma MatchAtExact(msg: string, i: nat, word: string)
    requires i <= |msg|
    ensures MatchAt(msg, i) == Some(word) <==> MatchesAt(msg, i, word)
  {
    if MatchAt(msg, i) == Some(word) {
      MatchAtSound(msg, i);
    }
    if MatchesAt(msg, i, word) {
      MatchAtComplete(msg, i, word);
    }
  }

  /** The leftmost position in [i, n] that satisfies p. */
  function FirstWhere(p: nat -> bool, i: nat, n: nat): (r: Option<nat>)
    requires i <= n + 1
    ensures r.Some? ==> i <= r.value <= n && p(r.value)
    ensures r.Some? ==> forall q :: i <= q < r.value ==> !p(q)
    ensures r.None? ==> forall q :: i <= q <= n ==> !p(q)
    decreases n + 1 - i
  {
    if i == n + 1 then None
    else if p(i) then Some(i)
    else FirstWhere(p, i + 1, n)
  }

  /** The scanner matches at position q. */
  predicate MatchesHere(msg: string, q: nat)
  {
    q <= |msg| && MatchAt(msg, q).Some?
  }

  /** The leftmost position where the scanner matches. */
  function Leftmost(msg: string): (r: Option<nat>)
    ensures r.Some? ==> r.value <= |msg| && MatchAt(msg, r.value).Some?
    ensures r.Some? ==> forall q :: 0 <= q < r.value ==> !MatchesHere(msg, q)
    ensures r.None? ==> forall q :: 0 <= q <= |msg| ==> !MatchesHere(msg, q)
  {
    var p := (q: nat) => MatchesHere(msg, q);
    var r := FirstWhere(p, 0, |msg|);
    assert forall q: nat :: p(q) == MatchesHere(msg, q);
    r
  }

  /** `re.search(pattern, msg)` followed by `.group(1)`: the word captured
      by the leftmost match, if there is one. */
  function Search(msg: string): Option<string>
  {
    match Leftmost(msg)
    case None => None
    case Some(p) => MatchAt(msg, p)
  }

  /** The pattern matches at p capturing word, and at no earlier position. */
  ghost predicate LeftmostMatch(msg: string, p: nat, word: string)
  {
    p <= |msg| && MatchesAt(msg, p, word) && forall q: nat, w :: q < p ==> !MatchesAt(msg, q, w)
  }

  /** Where the scanner fails, the pattern matches with no word. */
  lemma NoMatchAt(msg: string, q: nat)
    requires q <= |msg|
    requires !MatchesHere(msg, q)
    ensures forall w :: !MatchesAt(msg, q, w)
  {
    forall w | MatchesAt(msg, q, w)
      ensures false
    {
      MatchAtComplete(msg, q, w);
    }
  }

  /** Search returns the word of the leftmost match of the pattern. */
  lemma SearchLeftmost(msg: string)
    requires Search(msg).Some?
    ensures exists p :: 0 <= p <= |msg| && MatchesAt(msg, p, Search(msg).value)
                     && forall q, w :: 0 <= q < p ==> !MatchesAt(msg, q, w)
  {
    var p := Leftmost(msg).value;
    MatchAtSound(msg, p);
    forall q: nat, w | q < p
      ensures !MatchesAt(msg, q, w)
    {
      NoMatchAt(msg, q);
    }
    assert MatchesAt(msg, p, Search(msg).value);
  }

  /** Search returns a word exactly when that word is captured by the
      leftmost match of the pattern. */
  lemma SearchExact(msg: string, word: string)
    ensures Search(msg) == Some(word) <==> exists p: nat :: LeftmostMatch(msg, p, word)
  {
    if p: nat :| LeftmostMatch(msg, p, word) {
      SearchNone(msg);
      SearchLeftmost(msg);
      var v := Search(msg).value;
      var p' :| 0 <= p' <= |msg| && MatchesAt(msg, p', v) && forall q, w :: 0 <= q < p' ==> !MatchesAt(msg, q, w);
      assert p' == p;
      MatchAtExact(msg, p, word);
      MatchAtExact(msg, p, v);
    }
    if Search(msg) == Some(word) {
      SearchLeftmost(msg);
      var p: nat :| p <= |msg| && MatchesAt(msg, p, word) && forall q, w :: 0 <= q < p ==> !MatchesAt(msg, q, w);
      assert LeftmostMatch(msg, p, word);
    }
  }

  /** Search returns nothing exactly when the pattern matches nowhere. */
  lemma SearchNone(msg: string)
    ensures Search(msg).None? <==> forall p, w :: 0 <= p <= |msg| ==> !MatchesAt(msg, p, w)
  {
    var first := Leftmost(msg);
    if first.None? {
      forall q: nat, w | q <= |msg|
        ensures !MatchesAt(msg, q, w)
      {
        NoMatchAt(msg, q);
      }
    } else {
      MatchAtSound(msg, first.value);
    }
  }

  lemma StartsAtMiddle(p: string, x: string, y: string)
    ensures StartsAt(p + x + y, |p|, x)
  {
    assert (p + x + y)[|p|..|p| + |x|] == x;
  }

  /** A message whose prefix holds no 'm' has its leftmost match, if any,
      no earlier than the end of that prefix. */
  lemma NoMatchInPrefix(p: string, rest: string, q: nat)
    requires 'm' !in p
    requires q < |p|
    ensures !MatchesHere(p + rest, q)
  {
    assert (p + rest)[q] == p[q];
  }

  /** After a prefix without 'm', an instance of the pattern is the
      leftmost match, whatever follows it. */
  lemma SearchFindsInstance(prefix: string, digits: string, esses: nat, word: string, rest: string)
    requires 'm' !in prefix
    requires |digits| > 0 && AllIn(digits, Digits)
    requires |word| > 0 && AllIn(word, WordChars)
    ensures Search(prefix + Instance(digits, esses, word) + rest) == Some(word)
  {
    var inst := Instance(digits, esses, word);
    var msg := prefix + inst + rest;
    StartsAtMiddle(prefix, inst, rest);
    assert MatchesAt(msg, |prefix|, word);
    MatchAtComplete(msg, |prefix|, word);
    forall q: nat | q < |prefix|
      ensures !MatchesHere(msg, q)
    {
      NoMatchInPrefix(prefix, inst + rest, q);
      assert msg == prefix + (inst + rest);
    }
    var first := Leftmost(msg);
    assert MatchesHere(msg, |prefix|);
    assert first == Some(|prefix|);
  }

  /** The message Python gives for one missing argument,
      "__call__() missing 1 required positional argument: 'sequences'",
      yields that argument's name. */
  lemma SingleMissingArgument()
    ensures Search("__call__() " + Instance("1", 0, "sequences")) == Some("sequences")
  {
    var msg := "__call__() " + Instance("1", 0, "sequences");
    SearchFindsInstance("__call__() ", "1", 0, "sequences", "");
    assert msg + "" == msg;
  }

  /** With several missing arguments, as in
      "f() missing 2 required positional arguments: 'a' and 'b'",
      only the first name is captured. */
  lemma SeveralMissingArguments()
    ensures Search("f() " + Instance("2", 1, "a") + " and 'b'") == Some("a")
  {
    SearchFindsInstance("f() ", "2", 1, "a", " and 'b'");
  }
}
