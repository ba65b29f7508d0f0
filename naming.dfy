/**
 * Name handling shared by the event router and the API materializer:
 * `snakeToCamel` (the legacy `_snakeToCamel` is the same function) and
 * `String.prototype.split(".")` on dotted method names, with `Join` as the
 * inverse the model proves it against.
 */
module Naming {

  predicate IsLower(c: char) {
    'a' <= c <= 'z'
  }

  /** `toUpperCase` on an ASCII lower-case letter. */
  function Upper(c: char): (u: char)
    requires IsLower(c)
    ensures 'A' <= u <= 'Z' && u as int + 32 == c as int
  {
    (c as int - 32) as char
  }

  /** Whether a `_[a-z]` match of the regular expression starts at position `i`. */
  predicate MatchAt(s: string, i: int) {
    0 <= i < |s| - 1 && s[i] == '_' && IsLower(s[i + 1])
  }

  /**
   * `name.replace(/(_[a-z])/g, m => m.toUpperCase().replace("_", ""))`: scanning
   * from the left, each `_` followed by a lower-case ASCII letter becomes that
   * letter upper-cased; the scan resumes after the letter.
   */
  function SnakeToCamel(s: string): (r: string)
    ensures |r| <= |s|
    ensures r == [] <==> s == []
    decreases |s|
  {
    if s == [] then []
    else if MatchAt(s, 0) then [Upper(s[1])] + SnakeToCamel(s[2..])
    else [s[0]] + SnakeToCamel(s[1..])
  }

  /** No `_` directly followed by a lower-case letter. */
  predicate NoSnakePair(t: string) {
    forall i :: 0 <= i < |t| - 1 ==> !MatchAt(t, i)
  }

  /** How many replacements the scan makes. */
  function Matches(s: string): nat
    decreases |s|
  {
    if s == [] then 0
    else if MatchAt(s, 0) then 1 + Matches(s[2..])
    else Matches(s[1..])
  }

  lemma FirstOfCamel(s: string)
    requires s != []
    ensures SnakeToCamel(s) != []
    ensures SnakeToCamel(s)[0] == if MatchAt(s, 0) then Upper(s[1]) else s[0]
  {
  }

  /** Each replacement removes exactly one character (the `_`). */
  lemma {:induction false} CamelLength(s: string)
    ensures |SnakeToCamel(s)| == |s| - Matches(s)
    decreases |s|
  {
    if s != [] {
      if MatchAt(s, 0) { CamelLength(s[2..]); } else { CamelLength(s[1..]); }
    }
  }

  /** The result never contains a `_[a-z]` pair, so a second pass changes nothing. */
  lemma {:induction false} CamelHasNoSnakePair(s: string)
    ensures NoSnakePair(SnakeToCamel(s))
    decreases |s|
  {
    if s != [] {
      var t := SnakeToCamel(s);
      if MatchAt(s, 0) {
        CamelHasNoSnakePair(s[2..]);
        var rest := SnakeToCamel(s[2..]);
        assert t == [Upper(s[1])] + rest;
        forall i | 0 <= i < |t| - 1 ensures !MatchAt(t, i) {
          if i > 0 {
            assert t[i] == rest[i - 1] && t[i + 1] == rest[i];
            assert !MatchAt(rest, i - 1);
          }
        }
      } else {
        CamelHasNoSnakePair(s[1..]);
        var rest := SnakeToCamel(s[1..]);
        assert t == [s[0]] + rest;
        forall i | 0 <= i < |t| - 1 ensures !MatchAt(t, i) {
          if i > 0 {
            assert t[i] == rest[i - 1] && t[i + 1] == rest[i];
            assert !MatchAt(rest, i - 1);
          } else if s[0] == '_' {
            FirstOfCamel(s[1..]);
            assert !IsLower(s[1]);
            assert rest[0] == s[1] || 'A' <= rest[0] <= 'Z';
          }
        }
      }
    }
  }

  /** A name without `_[a-z]` pairs is left unchanged. */
  lemma {:induction false} CamelFixedPoint(t: string)
    requires NoSnakePair(t)
    ensures SnakeToCamel(t) == t
    decreases |t|
  {
    if t != [] {
      assert !MatchAt(t, 0);
      var r := t[1..];
      assert forall i :: 0 <= i < |r| - 1 ==> (MatchAt(r, i) <==> MatchAt(t, i + 1));
      CamelFixedPoint(r);
    }
  }

  lemma CamelIdempotent(s: string)
    ensures SnakeToCamel(SnakeToCamel(s)) == SnakeToCamel(s)
  {
    CamelHasNoSnakePair(s);
    CamelFixedPoint(SnakeToCamel(s));
  }

  /** The scan of a concatenation splits when no match can straddle the seam. */
  lemma {:induction false} CamelConcat(a: string, b: string)
    requires a == [] || a[|a| - 1] != '_'
    ensures SnakeToCamel(a + b) == SnakeToCamel(a) + SnakeToCamel(b)
    decreases |a|
  {
    if a == [] {
      assert a + b == b;
    } else {
      var k, head := CamelHead(a, b);
      CamelConcat(a[k..], b);
      assert head + (SnakeToCamel(a[k..]) + SnakeToCamel(b)) == (head + SnakeToCamel(a[k..])) + SnakeToCamel(b);
    }
  }

  /** A trailing dot is no part of any match: it stays put. */
  lemma {:induction false} CamelDotEnd(a: string)
    ensures SnakeToCamel(a + ".") == SnakeToCamel(a) + "."
    decreases |a|
  {
    var s := a + ".";
    if a != [] {
      assert s[0] == a[0] && s[1] == if |a| >= 2 then a[1] else '.';
      if MatchAt(a, 0) {
        assert s[2..] == a[2..] + ".";
        CamelDotEnd(a[2..]);
      } else {
        assert s[1..] == a[1..] + ".";
        CamelDotEnd(a[1..]);
      }
    }
  }

  /** Camel-casing a dotted pair camel-cases each side. */
  lemma CamelDot(a: string, b: string)
    ensures SnakeToCamel(a + "." + b) == SnakeToCamel(a) + "." + SnakeToCamel(b)
  {
    CamelDotEnd(a);
    CamelConcat(a + ".", b);
  }

  /** The first step of the scan is the same over `a + b` as over `a` when `a` does not end in `_`. */
  lemma CamelHead(a: string, b: string) returns (k: nat, head: string)
    requires a != [] && a[|a| - 1] != '_'
    ensures 1 <= k <= |a|
    ensures SnakeToCamel(a + b) == head + SnakeToCamel(a[k..] + b)
    ensures SnakeToCamel(a) == head + SnakeToCamel(a[k..])
    ensures a[k..] == [] || a[k..][|a[k..]| - 1] != '_'
  {
    var s := a + b;
    assert s[0] == a[0];
    assert |a| >= 2 ==> s[1] == a[1];
    if MatchAt(a, 0) {
      k, head := 2, [Upper(a[1])];
    } else {
      k, head := 1, [a[0]];
    }
    assert s[k..] == a[k..] + b;
  }

  predicate NoUnderscore(w: string) {
    forall i :: 0 <= i < |w| ==> w[i] != '_'
  }

  /** A name without underscores is left unchanged. */
  lemma CamelNoUnderscore(w: string)
    requires NoUnderscore(w)
    ensures SnakeToCamel(w) == w
  {
    CamelFixedPoint(w);
  }

  /** Words joined by `_`, the wire's naming convention ("track_playback_started"). */
  function SnakeJoin(words: seq<string>): string
    decreases |words|
  {
    if words == [] then []
    else if |words| == 1 then words[0]
    else SnakeJoin(words[..|words| - 1]) + "_" + words[|words| - 1]
  }

  /** The first word as it is, each later word with its first letter upper-cased ("trackPlaybackStarted"). */
  function CamelJoin(words: seq<string>): string
    requires forall k :: 1 <= k < |words| ==> words[k] != [] && IsLower(words[k][0])
    decreases |words|
  {
    if words == [] then []
    else if |words| == 1 then words[0]
    else
      var w := words[|words| - 1];
      CamelJoin(words[..|words| - 1]) + [Upper(w[0])] + w[1..]
  }

  /** The words of a snake_case name whose later words start with a lower-case letter. */
  predicate SnakeWords(words: seq<string>) {
    && (forall k :: 0 <= k < |words| ==> NoUnderscore(words[k]))
    && (forall k :: 1 <= k < |words| ==> words[k] != [] && IsLower(words[k][0]))
  }

  lemma {:induction false} SnakeJoinLast(words: seq<string>)
    requires SnakeWords(words) && |words| >= 1
    ensures var s := SnakeJoin(words); s == [] || s[|s| - 1] != '_'
    decreases |words|
  {
    if |words| > 1 {
      var w := words[|words| - 1];
      assert w[|w| - 1] != '_';
    }
  }

  /** One `_word` segment: its first letter is upper-cased, the rest kept. */
  lemma CamelSegment(w: string)
    requires w != [] && IsLower(w[0]) && NoUnderscore(w)
    ensures SnakeToCamel("_" + w) == [Upper(w[0])] + w[1..]
  {
    var tail := "_" + w;
    assert MatchAt(tail, 0) && tail[1] == w[0] && tail[2..] == w[1..];
    assert NoUnderscore(w[1..]);
    CamelNoUnderscore(w[1..]);
  }

  /** snake_case words come out camelCased: "track_playback_started" gives "trackPlaybackStarted". */
  lemma {:induction false} CamelOfSnakeWords(words: seq<string>)
    requires SnakeWords(words)
    ensures SnakeToCamel(SnakeJoin(words)) == CamelJoin(words)
    decreases |words|
  {
    if |words| == 1 {
      CamelNoUnderscore(words[0]);
    } else if |words| > 1 {
      var init := words[..|words| - 1];
      var w := words[|words| - 1];
      assert SnakeWords(init);
      CamelOfSnakeWords(init);
      SnakeJoinLast(init);
      CamelConcat(SnakeJoin(init), "_" + w);
      CamelSegment(w);
      assert SnakeJoin(words) == SnakeJoin(init) + ("_" + w);
    }
  }

  /** A three-word event name from the Mopidy.js test suite. */
  lemma CamelExampleEvent()
    ensures SnakeToCamel("track_playback_started") == "trackPlaybackStarted"
  {
    var w := ["track", "playback", "started"];
    assert SnakeWords(w);
    CamelOfSnakeWords(w);
    TrackWords();
  }

  lemma TrackWords()
    ensures SnakeJoin(["track", "playback", "started"]) == "track_playback_started"
    ensures CamelJoin(["track", "playback", "started"]) == "trackPlaybackStarted"
  {
    var w := ["track", "playback", "started"];
    assert w[..2] == ["track", "playback"] && w[..2][..1] == ["track"];
    assert SnakeJoin(w[..2]) == "track_playback";
    assert CamelJoin(w[..2]) == "trackPlayback";
  }

  /** A two-word event name from the Mopidy.js test suite. */
  lemma CamelExampleGreeting()
    ensures SnakeToCamel("mighty_greetings") == "mightyGreetings"
  {
    var w := ["mighty", "greetings"];
    assert SnakeWords(w);
    CamelOfSnakeWords(w);
    assert w[..1] == ["mighty"];
    assert SnakeJoin(w) == "mighty_greetings";
    assert CamelJoin(w) == "mightyGreetings";
  }

  // ----- dotted names -----

  /** `s.split(".")`: always at least one piece; "" gives [""]. */
  function Split(s: string): (r: seq<string>)
    ensures |r| >= 1
    decreases |s|
  {
    if s == [] then [[]]
    else
      var rest := Split(s[1..]);
      if s[0] == '.' then [[]] + rest else [[s[0]] + rest[0]] + rest[1..]
  }

  /** `parts.join(".")`. */
  function Join(parts: seq<string>): string
    decreases |parts|
  {
    if parts == [] then []
    else if |parts| == 1 then parts[0]
    else parts[0] + "." + Join(parts[1..])
  }

  predicate Undotted(p: string) {
    forall i :: 0 <= i < |p| ==> p[i] != '.'
  }

  lemma {:induction false} SplitPiecesUndotted(s: string)
    ensures forall k :: 0 <= k < |Split(s)| ==> Undotted(Split(s)[k])
    decreases |s|
  {
    if s != [] {
      SplitPiecesUndotted(s[1..]);
    }
  }

  lemma {:induction false} JoinOfSplit(s: string)
    ensures Join(Split(s)) == s
    decreases |s|
  {
    if s != [] {
      var rest := Split(s[1..]);
      JoinOfSplit(s[1..]);
      if s[0] == '.' {
        assert ([[]] + rest)[1..] == rest;
      } else {
        var r := [[s[0]] + rest[0]] + rest[1..];
        if |rest| > 1 {
          assert r[1..] == rest[1..];
          assert Join(rest) == rest[0] + "." + Join(rest[1..]);
        }
      }
    }
  }

  lemma {:induction false} SplitPlain(p: string)
    requires Undotted(p)
    ensures Split(p) == [p]
    decreases |p|
  {
    if p != [] {
      SplitPlain(p[1..]);
      assert [p[0]] + p[1..] == p;
    }
  }

  lemma {:induction false} SplitDot(p: string, t: string)
    requires Undotted(p)
    ensures Split(p + "." + t) == [p] + Split(t)
    decreases |p|
  {
    var s := p + "." + t;
    if p == [] {
      assert s[0] == '.' && s[1..] == t;
    } else {
      assert s[0] == p[0] && s[1..] == p[1..] + "." + t;
      SplitDot(p[1..], t);
      assert [p[0]] + p[1..] == p;
    }
  }

  /** Splitting undoes joining pieces that contain no dot. */
  lemma {:induction false} SplitOfJoin(parts: seq<string>)
    requires |parts| >= 1
    requires forall k :: 0 <= k < |parts| ==> Undotted(parts[k])
    ensures Split(Join(parts)) == parts
    decreases |parts|
  {
    if |parts| == 1 {
      SplitPlain(parts[0]);
    } else {
      SplitOfJoin(parts[1..]);
      SplitDot(parts[0], Join(parts[1..]));
      assert [parts[0]] + parts[1..] == parts;
    }
  }
}
