/**
 * String primitives with the semantics of the JavaScript built-ins the client relies on:
 * `trim`, the `\s` character class, ASCII case-insensitive comparison, `startsWith`,
 * `endsWith`, `substring`, `split` on one character and `join`.
 * Strings are sequences of characters; JavaScript counts UTF-16 code units instead.
 */
module JsString {
  import opened Wrappers

  /** JavaScript's WhiteSpace and LineTerminator code points: what `trim` strips and `\s` matches. */
  predicate IsSpace(c: char) {
    || c == '\t' || c == '\n' || c == '\U{000B}' || c == '\U{000C}' || c == '\r' || c == ' '
    || c == '\U{00A0}' || c == '\U{1680}' || ('\U{2000}' <= c <= '\U{200A}')
    || c == '\U{2028}' || c == '\U{2029}' || c == '\U{202F}' || c == '\U{205F}'
    || c == '\U{3000}' || c == '\U{FEFF}'
  }

  /** Every character of `s` is whitespace (vacuously true of the empty string). */
  predicate AllSpace(s: string) {
    forall k :: 0 <= k < |s| ==> IsSpace(s[k])
  }

  /** `s` with its leading whitespace removed. */
  function TrimStart(s: string): (r: string)
    ensures |r| <= |s|
    decreases |s|
  {
    if s != [] && IsSpace(s[0]) then TrimStart(s[1..]) else s
  }

  /** `TrimStart` leaves the suffix of `s` that starts at its first non-whitespace character. */
  lemma {:induction false} TrimStartSuffix(s: string)
    ensures TrimStart(s) == s[|s| - |TrimStart(s)|..]
    ensures forall k :: 0 <= k < |s| - |TrimStart(s)| ==> IsSpace(s[k])
    ensures TrimStart(s) != [] ==> !IsSpace(TrimStart(s)[0])
    decreases |s|
  {
    if s != [] && IsSpace(s[0]) {
      TrimStartSuffix(s[1..]);
    }
  }

  /** `s` with its trailing whitespace removed. */
  function TrimEnd(s: string): (r: string)
    ensures |r| <= |s|
    decreases |s|
  {
    if s != [] && IsSpace(s[|s| - 1]) then TrimEnd(s[..|s| - 1]) else s
  }

  /** `TrimEnd` leaves the prefix of `s` that ends at its last non-whitespace character. */
  lemma {:induction false} TrimEndPrefix(s: string)
    ensures TrimEnd(s) == s[..|TrimEnd(s)|]
    ensures forall k :: |TrimEnd(s)| <= k < |s| ==> IsSpace(s[k])
    ensures TrimEnd(s) != [] ==> !IsSpace(TrimEnd(s)[|TrimEnd(s)| - 1])
    decreases |s|
  {
    if s != [] && IsSpace(s[|s| - 1]) {
      TrimEndPrefix(s[..|s| - 1]);
    }
  }

  /**
   * `String.prototype.trim`: neither begins nor ends with whitespace. `TrimSlice` says which
   * slice of `s` it is and `TrimEmpty` when it is empty.
   */
  function Trim(s: string): (r: string)
    ensures |r| <= |s|
    ensures r != [] ==> !IsSpace(r[0]) && !IsSpace(r[|r| - 1])
  {
    TrimStartSuffix(s);
    TrimEndPrefix(TrimStart(s));
    var t := TrimStart(s);
    var r := TrimEnd(t);
    assert r != [] ==> r[0] == t[0];
    r
  }

  /**
   * What `Trim` removes: the result is the slice of `s` that starts at `lead`,
   * and everything before and after that slice is whitespace.
   */
  lemma TrimSlice(s: string) returns (lead: nat)
    ensures lead + |Trim(s)| <= |s|
    ensures Trim(s) == s[lead..lead + |Trim(s)|]
    ensures forall k :: 0 <= k < lead ==> IsSpace(s[k])
    ensures forall k :: lead + |Trim(s)| <= k < |s| ==> IsSpace(s[k])
  {
    var t := TrimStart(s);
    var r := TrimEnd(t);
    assert Trim(s) == r;
    TrimStartSuffix(s);
    lead := |s| - |t|;
    assert t == s[lead..];
    assert r == s[lead..lead + |r|] by {
      TrimEndPrefix(t);
      assert r == t[..|r|];
      assert s[lead..][..|r|] == s[lead..lead + |r|];
    }
    assert forall k :: lead + |r| <= k < |s| ==> IsSpace(s[k]) by {
      TrimEndPrefix(t);
      forall k | lead + |r| <= k < |s| ensures IsSpace(s[k]) {
        assert s[k] == t[k - lead];
      }
    }
  }

  /** Whitespace appended to a string that is not all whitespace survives `TrimStart`. */
  lemma {:induction false} TrimStartAppend(x: string, w: string)
    requires !AllSpace(x)
    ensures TrimStart(x + w) == TrimStart(x) + w
    decreases |x|
  {
    assert (x + w)[0] == x[0];
    if IsSpace(x[0]) {
      assert (x + w)[1..] == x[1..] + w;
      TrimStartAppend(x[1..], w);
    }
  }

  /** Leading whitespace before a non-whitespace character (or the end) is removed whole. */
  lemma {:induction false} TrimStartSpace(ws: string, rest: string)
    requires AllSpace(ws) && (rest == [] || !IsSpace(rest[0]))
    ensures TrimStart(ws + rest) == rest
    decreases |ws|
  {
    if ws == [] {
      assert ws + rest == rest;
    } else {
      assert (ws + rest)[0] == ws[0] && (ws + rest)[1..] == ws[1..] + rest;
      TrimStartSpace(ws[1..], rest);
    }
  }

  /** `TrimEnd` removes appended whitespace. */
  lemma {:induction false} TrimEndAppendSpace(t: string, w: string)
    requires AllSpace(w)
    ensures TrimEnd(t + w) == TrimEnd(t)
    decreases |w|
  {
    if w == [] {
      assert t + w == t;
    } else {
      var n := |w| - 1;
      assert (t + w)[..|t + w| - 1] == t + w[..n];
      TrimEndAppendSpace(t, w[..n]);
    }
  }

  /** Trailing whitespace does not change the trimmed string. */
  lemma TrimTrailingSpace(x: string, w: string)
    requires AllSpace(w)
    ensures Trim(x + w) == Trim(x)
  {
    if AllSpace(x) {
      TrimEmpty(x);
      TrimEmpty(x + w);
    } else {
      TrimStartAppend(x, w);
      TrimEndAppendSpace(TrimStart(x), w);
    }
  }

  /** `trim` gives the empty string exactly when every character is whitespace. */
  lemma TrimEmpty(s: string)
    ensures Trim(s) == [] <==> AllSpace(s)
  {
    var lead := TrimSlice(s);
    if Trim(s) != [] {
      assert !IsSpace(s[lead]);
    }
  }

  /** Blank in the sense of `!s.trim()`: empty after trimming. */
  predicate Blank(s: string) {
    Trim(s) == []
  }

  /** A string with no whitespace at either end is its own trim. */
  lemma TrimNoEdges(s: string)
    requires s == [] || (!IsSpace(s[0]) && !IsSpace(s[|s| - 1]))
    ensures Trim(s) == s
  {
    assert TrimStart(s) == s;
    assert TrimEnd(s) == s;
  }

  /** Trimming twice is trimming once. */
  lemma TrimIdempotent(s: string)
    ensures Trim(Trim(s)) == Trim(s)
  {
    TrimNoEdges(Trim(s));
  }

  /** One space on each side of a string without edge whitespace is trimmed away. */
  lemma TrimPadded(x: string)
    requires x != [] && !IsSpace(x[0]) && !IsSpace(x[|x| - 1])
    ensures Trim(" " + x + " ") == x
  {
    var s := " " + x + " ";
    assert s[1..] == x + " ";
    assert TrimStart(x + " ") == x + " ";
    assert (x + " ")[..|x|] == x;
    assert TrimEnd(x) == x;
  }

  /** ASCII lower-casing of one character. */
  function LowerChar(c: char): (r: char)
    ensures 'A' <= c <= 'Z' ==> r as int == c as int + 32
    ensures !('A' <= c <= 'Z') ==> r == c
  {
    if 'A' <= c <= 'Z' then (c as int + 32) as char else c
  }

  /** ASCII `toLowerCase`. */
  function Lower(s: string): (r: string)
    ensures |r| == |s|
    ensures forall k :: 0 <= k < |s| ==> r[k] == LowerChar(s[k])
  {
    seq(|s|, k requires 0 <= k < |s| => LowerChar(s[k]))
  }

  /** `s.startsWith(p)`. */
  predicate StartsWith(s: string, p: string) {
    |p| <= |s| && s[..|p|] == p
  }

  /** `s.endsWith(p)`. */
  predicate EndsWith(s: string, p: string) {
    |p| <= |s| && s[|s| - |p|..] == p
  }

  /** The lower-case literal `lit` occurs at index `i` of `s`, ASCII letters compared without regard to case. */
  predicate MatchesAt(s: string, i: nat, lit: string) {
    i + |lit| <= |s| && forall k :: 0 <= k < |lit| ==> LowerChar(s[i + k]) == lit[k]
  }

  /** `s` ends with the lower-case literal `lit`, letters compared without regard to case. */
  predicate EndsWithIgnoreCase(s: string, lit: string) {
    EndsWith(Lower(s), lit)
  }

  /** `s.substring(0, n)` for a non-negative `n`: the first `n` characters, or all of a shorter `s`. */
  function Prefix(s: string, n: nat): (r: string)
    ensures |r| == if |s| < n then |s| else n
    ensures StartsWith(s, r)
  {
    if |s| < n then s else s[..n]
  }

  /** `s.substring(a, b)`: both indices clamped into `0..|s|` and swapped when out of order. */
  function Substring(s: string, a: int, b: int): (r: string)
    ensures 0 <= a <= b <= |s| ==> r == s[a..b]
    ensures 0 <= b <= a <= |s| ==> r == s[b..a]
    ensures |r| <= |s|
  {
    var lo := if a < 0 then 0 else if a > |s| then |s| else a;
    var hi := if b < 0 then 0 else if b > |s| then |s| else b;
    if lo <= hi then s[lo..hi] else s[hi..lo]
  }

  /** The first index at or after `from` holding `c`; `IndexOfCharFirst` says that it is the first. */
  function IndexOfChar(s: string, c: char, from: nat): (r: Option<nat>)
    requires from <= |s|
    ensures r.Some? ==> from <= r.value < |s| && s[r.value] == c
    decreases |s| - from
  {
    if from == |s| then None
    else if s[from] == c then Some(from)
    else IndexOfChar(s, c, from + 1)
  }

  /** No `c` comes between `from` and the index `IndexOfChar` finds, nor anywhere after `from` when it finds none. */
  lemma {:induction false} IndexOfCharFirst(s: string, c: char, from: nat)
    requires from <= |s|
    ensures IndexOfChar(s, c, from).Some? ==> forall k :: from <= k < IndexOfChar(s, c, from).value ==> s[k] != c
    ensures IndexOfChar(s, c, from).None? ==> forall k :: from <= k < |s| ==> s[k] != c
    decreases |s| - from
  {
    if from < |s| && s[from] != c {
      IndexOfCharFirst(s, c, from + 1);
    }
  }

  /** The first index at or after `from` where the lower-case literal `lit` occurs, letters compared without regard to case. */
  function IndexOfIgnoreCase(s: string, lit: string, from: nat): (r: Option<nat>)
    requires from <= |s|
    ensures r.Some? ==> from <= r.value && MatchesAt(s, r.value, lit)
    decreases |s| - from
  {
    if MatchesAt(s, from, lit) then Some(from)
    else if from == |s| then None
    else IndexOfIgnoreCase(s, lit, from + 1)
  }

  /** Characters that cannot begin `lit` are skipped over without a match. */
  lemma {:induction false} IndexOfIgnoreCaseSkips(s: string, lit: string, from: nat, to: nat)
    requires lit != [] && from <= to <= |s|
    requires forall k :: from <= k < to ==> LowerChar(s[k]) != lit[0]
    ensures IndexOfIgnoreCase(s, lit, from) == IndexOfIgnoreCase(s, lit, to)
    decreases |s| - from
  {
    if from < to {
      assert !MatchesAt(s, from, lit) by {
        if from + |lit| <= |s| {
          assert LowerChar(s[from + 0]) != lit[0];
        }
      }
      IndexOfIgnoreCaseSkips(s, lit, from + 1, to);
    }
  }

  /** `IndexOfChar` finds `c` at `at` when no `c` comes between `from` and `at`. */
  lemma {:induction false} IndexOfCharAt(s: string, c: char, from: nat, at: nat)
    requires from <= at < |s| && s[at] == c
    requires forall k :: from <= k < at ==> s[k] != c
    ensures IndexOfChar(s, c, from) == Some(at)
    decreases at - from
  {
    if from < at {
      IndexOfCharAt(s, c, from + 1, at);
    }
  }

  /** `IndexOfIgnoreCase` finds `lit` at `at` when it occurs nowhere between `from` and `at`. */
  lemma {:induction false} IndexOfIgnoreCaseAt(s: string, lit: string, from: nat, at: nat)
    requires from <= at <= |s| && MatchesAt(s, at, lit)
    requires forall k :: from <= k < at ==> !MatchesAt(s, k, lit)
    ensures IndexOfIgnoreCase(s, lit, from) == Some(at)
    decreases at - from
  {
    if from < at {
      IndexOfIgnoreCaseAt(s, lit, from + 1, at);
    }
  }

  /** A match inside a stretch `t` of `s` is a match in `t`, and the other way round. */
  lemma MatchesWithin(s: string, t: string, d: nat, i: nat, lit: string)
    requires d + |t| <= |s| && s[d..d + |t|] == t && i + |lit| <= |t|
    ensures MatchesAt(s, d + i, lit) <==> MatchesAt(t, i, lit)
  {
    forall m | i <= m < i + |lit| ensures t[m] == s[d + m] {
      assert s[d..d + |t|][m] == s[d + m];
    }
  }

  /** A non-empty sequence is its head followed by its tail, with anything appended to both sides. */
  lemma HeadTail<T>(x: seq<T>, t: seq<T>)
    requires x != []
    ensures x + t == [x[0]] + (x[1..] + t)
    ensures (x + t)[0] == x[0] && (x + t)[1..] == x[1..] + t
  {
    assert x == [x[0]] + x[1..];
  }

  /** Concatenation is associative. */
  lemma Reassociate<T>(a: seq<T>, b: seq<T>, c: seq<T>)
    ensures a + b + c == a + (b + c)
  {
  }

  /** The seven pieces of a concatenation, as slices of it. */
  lemma Pieces<T>(s: seq<T>, a: seq<T>, b: seq<T>, c: seq<T>, d: seq<T>, e: seq<T>, f: seq<T>, g: seq<T>)
    requires s == a + b + c + d + e + f + g
    ensures var i1 := |a|; var i2 := i1 + |b|; var i3 := i2 + |c|; var i4 := i3 + |d|;
      var i5 := i4 + |e|; var i6 := i5 + |f|;
      && s[..i1] == a && s[i1..i2] == b && s[i2..i3] == c && s[i3..i4] == d
      && s[i4..i5] == e && s[i5..i6] == f && s[i6..] == g
  {
  }

  /** `s.split(sep)` for a one-character separator: never empty, the pieces hold no `sep`. */
  function Split(s: string, sep: char): (r: seq<string>)
    ensures |r| >= 1
    ensures forall k :: 0 <= k < |r| ==> sep !in r[k]
    decreases |s|
  {
    if s == [] then [""]
    else if s[0] == sep then [""] + Split(s[1..], sep)
    else
      var rest := Split(s[1..], sep);
      [[s[0]] + rest[0]] + rest[1..]
  }

  /** `parts.join(sep)`. */
  function Join(parts: seq<string>, sep: string): string
    decreases |parts|
  {
    if parts == [] then ""
    else if |parts| == 1 then parts[0]
    else parts[0] + sep + Join(parts[1..], sep)
  }

  /** Joining the pieces of a split with the separator gives back the original string. */
  lemma {:induction false} JoinSplit(s: string, sep: char)
    ensures Join(Split(s, sep), [sep]) == s
    decreases |s|
  {
    if s == [] {
    } else if s[0] == sep {
      var rest := Split(s[1..], sep);
      JoinSplit(s[1..], sep);
      assert ([""] + rest)[1..] == rest;
    } else {
      var rest := Split(s[1..], sep);
      JoinSplit(s[1..], sep);
      var r := [[s[0]] + rest[0]] + rest[1..];
      if |rest| == 1 {
        assert r == [[s[0]] + rest[0]];
      } else {
        assert r[1..] == rest[1..];
        assert Join(rest, [sep]) == rest[0] + [sep] + Join(rest[1..], [sep]);
        assert s == [s[0]] + s[1..];
      }
    }
  }

  /** A piece without the separator splits to itself. */
  lemma {:induction false} SplitNoSeparator(p: string, sep: char)
    requires sep !in p
    ensures Split(p, sep) == [p]
    decreases |p|
  {
    if p != [] {
      SplitNoSeparator(p[1..], sep);
      assert [p[0]] + p[1..] == p;
    }
  }

  /** Splitting `p + sep + rest` peels off `p` when `p` holds no separator. */
  lemma {:induction false} SplitPeel(p: string, rest: string, sep: char)
    requires sep !in p
    ensures Split(p + [sep] + rest, sep) == [p] + Split(rest, sep)
    decreases |p|
  {
    var s := p + [sep] + rest;
    if p == [] {
      assert s[1..] == rest;
    } else {
      assert s[1..] == p[1..] + [sep] + rest;
      SplitPeel(p[1..], rest, sep);
      assert [p[0]] + p[1..] == p;
    }
  }

  /** Splitting a join gives back the pieces, when no piece holds the separator. */
  lemma {:induction false} SplitJoin(parts: seq<string>, sep: char)
    requires |parts| >= 1
    requires forall k :: 0 <= k < |parts| ==> sep !in parts[k]
    ensures Split(Join(parts, [sep]), sep) == parts
    decreases |parts|
  {
    if |parts| == 1 {
      SplitNoSeparator(parts[0], sep);
    } else {
      SplitJoin(parts[1..], sep);
      SplitPeel(parts[0], Join(parts[1..], [sep]), sep);
      assert [parts[0]] + parts[1..] == parts;
    }
  }

  /** `s.split(sep)[0]`: the characters of `s` before its first `sep`. */
  function FirstPiece(s: string, sep: char): (r: string)
    ensures |r| <= |s|
    decreases |s|
  {
    if s == [] || s[0] == sep then [] else [s[0]] + FirstPiece(s[1..], sep)
  }

  /** `FirstPiece` is the first piece of `Split`, a prefix of `s` ended by `sep` or by the end of `s`. */
  lemma {:induction false} FirstPieceOfSplit(s: string, sep: char)
    ensures FirstPiece(s, sep) == Split(s, sep)[0]
    ensures sep !in FirstPiece(s, sep)
    ensures StartsWith(s, FirstPiece(s, sep))
    ensures |FirstPiece(s, sep)| < |s| ==> s[|FirstPiece(s, sep)|] == sep
    decreases |s|
  {
    if s != [] && s[0] != sep {
      FirstPieceOfSplit(s[1..], sep);
      assert s == [s[0]] + s[1..];
    }
  }
}
