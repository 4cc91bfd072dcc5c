/** Python string primitives the scripts rely on: `sep.join`, `str.split`
    with a one-character separator, `re.sub` of one character, ASCII
    `str.lower`, `str(int)` and zero-padded `%0Nd`. */
module Strings {

  /** `sep.join(parts)`. */
  function Join(sep: string, parts: seq<string>): (r: string)
    ensures |parts| == 0 ==> r == ""
    ensures |parts| == 1 ==> r == parts[0]
  {
    if |parts| == 0 then ""
    else if |parts| == 1 then parts[0]
    else parts[0] + sep + Join(sep, parts[1..])
  }

  /** Prepending text to the first part prepends it to the joined string. */
  lemma JoinConsFirst(sep: string, a: string, b: string, rest: seq<string>)
    ensures Join(sep, [a + b] + rest) == a + Join(sep, [b] + rest)
  {
    if |rest| > 0 {
      assert ([a + b] + rest)[1..] == rest;
      assert ([b] + rest)[1..] == rest;
    }
  }

  /** Joining one more part appends the separator and that part. */
  lemma {:induction false} JoinSnoc(sep: string, parts: seq<string>, x: string)
    requires |parts| > 0
    ensures Join(sep, parts + [x]) == Join(sep, parts) + sep + x
    decreases |parts|
  {
    if |parts| == 1 {
      assert (parts + [x])[1..] == [x];
    } else {
      assert (parts + [x])[1..] == parts[1..] + [x];
      JoinSnoc(sep, parts[1..], x);
    }
  }

  /** `s.split(c)`: the pieces between occurrences of `c`; an empty string
      gives one empty piece. Joining the pieces back restores `s`. */
  function Split(s: string, c: char): (r: seq<string>)
    ensures |r| >= 1
    ensures forall i :: 0 <= i < |r| ==> c !in r[i]
    ensures Join([c], r) == s
    decreases |s|
  {
    if |s| == 0 then [""]
    else
      var rest := Split(s[1..], c);
      if s[0] == c then
        assert Join([c], [""] + rest) == [c] + Join([c], rest) by {
          assert ([""] + rest)[1..] == rest;
        }
        [""] + rest
      else
        JoinConsFirst([c], [s[0]], rest[0], rest[1..]);
        assert [rest[0]] + rest[1..] == rest;
        [[s[0]] + rest[0]] + rest[1..]
  }

  /** A character the string lacks is in none of its pieces. */
  lemma {:induction false} SplitAvoids(s: string, c: char, d: char)
    requires forall k :: 0 <= k < |s| ==> s[k] != d
    ensures forall i, k :: 0 <= i < |Split(s, c)| && 0 <= k < |Split(s, c)[i]| ==> Split(s, c)[i][k] != d
    decreases |s|
  {
    if |s| > 0 {
      assert forall k :: 0 <= k < |s[1..]| ==> s[1..][k] == s[k + 1];
      SplitAvoids(s[1..], c, d);
      var rest := Split(s[1..], c);
      var r := Split(s, c);
      if s[0] == c {
        assert r == [""] + rest;
        forall i, k | 0 <= i < |r| && 0 <= k < |r[i]| ensures r[i][k] != d {
          assert r[i][k] == rest[i - 1][k];
        }
      } else {
        var first := [s[0]] + rest[0];
        assert r == [first] + rest[1..];
        forall i, k | 0 <= i < |r| && 0 <= k < |r[i]| ensures r[i][k] != d {
          if i > 0 {
            assert r[i][k] == rest[i][k];
          } else if k > 0 {
            assert r[i][k] == rest[0][k - 1];
          } else {
            assert r[i][k] == s[0];
          }
        }
      }
    }
  }

  /** A string without the separator is one piece. */
  lemma {:induction false} SplitNoSeparator(s: string, c: char)
    requires c !in s
    ensures Split(s, c) == [s]
    decreases |s|
  {
    if |s| > 0 {
      assert c !in s[1..];
      SplitNoSeparator(s[1..], c);
    }
  }

  /** The first separator of `a + [c] + b` ends the first piece. */
  lemma {:induction false} SplitAtFirst(a: string, c: char, b: string)
    requires c !in a
    ensures Split(a + [c] + b, c) == [a] + Split(b, c)
    decreases |a|
  {
    var s := a + [c] + b;
    if |a| == 0 {
      assert s[0] == c && s[1..] == b;
    } else {
      assert s[0] == a[0] && s[1..] == a[1..] + [c] + b;
      SplitAtFirst(a[1..], c, b);
      assert [a[0]] + a[1..] == a;
    }
  }

  /** Text before a separator that contains no separator is recovered
      from the concatenation, and so is the text after it. */
  lemma SeparatorCancel(a1: string, y1: string, a2: string, y2: string, c: char)
    requires c !in a1 && c !in a2 && a1 + [c] + y1 == a2 + [c] + y2
    ensures a1 == a2 && y1 == y2
  {
    SplitAtFirst(a1, c, y1);
    SplitAtFirst(a2, c, y2);
    assert (a1 + [c] + y1)[|a1| + 1..] == y1;
    assert (a2 + [c] + y2)[|a2| + 1..] == y2;
  }

  /** A character absent from the separator and from every part is absent
      from the joined string. */
  lemma {:induction false} JoinAvoids(sep: string, parts: seq<string>, c: char)
    requires c !in sep
    requires forall i :: 0 <= i < |parts| ==> c !in parts[i]
    ensures c !in Join(sep, parts)
    decreases |parts|
  {
    if |parts| > 1 {
      JoinAvoids(sep, parts[1..], c);
    }
  }

  /** Splitting a join of separator-free parts gives the parts back. */
  lemma {:induction false} SplitJoin(parts: seq<string>, c: char)
    requires |parts| >= 1
    requires forall i :: 0 <= i < |parts| ==> c !in parts[i]
    ensures Split(Join([c], parts), c) == parts
    decreases |parts|
  {
    if |parts| == 1 {
      SplitNoSeparator(parts[0], c);
    } else {
      SplitJoin(parts[1..], c);
      SplitAtFirst(parts[0], c, Join([c], parts[1..]));
      assert [parts[0]] + parts[1..] == parts;
    }
  }

  /** `re.sub(c, rep, s)` for a one-character pattern `c` that is not a
      regex operator: every occurrence of `c` becomes `rep`. */
  function ReplaceChar(s: string, c: char, rep: string): (r: string)
    ensures c !in rep ==> c !in r
    ensures c !in s ==> r == s
    ensures forall ch :: ch in r ==> ch in s || ch in rep
    decreases |s|
  {
    if |s| == 0 then ""
    else (if s[0] == c then rep else [s[0]]) + ReplaceChar(s[1..], c, rep)
  }

  /** Replacing a character is splitting on it and joining with the
      replacement. */
  lemma {:induction false} ReplaceCharIsSplitJoin(s: string, c: char, rep: string)
    ensures ReplaceChar(s, c, rep) == Join(rep, Split(s, c))
    decreases |s|
  {
    if |s| > 0 {
      ReplaceCharIsSplitJoin(s[1..], c, rep);
      JoinSplitStep(s, c, rep);
    }
  }

  /** Joining the pieces of `s` with `rep` peels off its first character:
      the separator becomes `rep`, any other character stays. */
  lemma JoinSplitStep(s: string, c: char, rep: string)
    requires |s| > 0
    ensures Join(rep, Split(s, c)) == (if s[0] == c then rep else [s[0]]) + Join(rep, Split(s[1..], c))
  {
    var rest := Split(s[1..], c);
    if s[0] == c {
      assert Split(s, c) == [""] + rest;
      assert ([""] + rest)[1..] == rest;
    } else {
      assert Split(s, c) == [[s[0]] + rest[0]] + rest[1..];
      JoinConsFirst(rep, [s[0]], rest[0], rest[1..]);
      assert [rest[0]] + rest[1..] == rest;
    }
  }

  predicate IsUpper(ch: char) {
    'A' <= ch <= 'Z'
  }

  function LowerChar(ch: char): char {
    if IsUpper(ch) then (ch as int + 32) as char else ch
  }

  /** ASCII `str.lower`. */
  function Lower(s: string): (r: string)
    ensures |r| == |s|
    ensures forall i :: 0 <= i < |r| ==> !IsUpper(r[i])
    ensures forall i :: 0 <= i < |r| ==> (IsUpper(s[i]) || r[i] == s[i])
  {
    seq(|s|, i requires 0 <= i < |s| => LowerChar(s[i]))
  }

  predicate IsDigit(ch: char) {
    '0' <= ch <= '9'
  }

  function DigitChar(d: nat): (ch: char)
    requires d < 10
    ensures IsDigit(ch)
  {
    ('0' as int + d) as char
  }

  function DigitValue(ch: char): nat
    requires IsDigit(ch)
  {
    ch as int - '0' as int
  }

  /** `str(n)` for a non-negative integer: decimal, no leading zero. */
  function NatToString(n: nat): (r: string)
    ensures |r| >= 1
    ensures forall i :: 0 <= i < |r| ==> IsDigit(r[i])
    ensures r[0] == '0' ==> n == 0
    decreases n
  {
    if n < 10 then [DigitChar(n)]
    else NatToString(n / 10) + [DigitChar(n % 10)]
  }

  /** The number a digit string denotes. */
  function DecimalValue(s: string): nat
    requires forall i :: 0 <= i < |s| ==> IsDigit(s[i])
    decreases |s|
  {
    if |s| == 0 then 0
    else DecimalValue(s[..|s| - 1]) * 10 + DigitValue(s[|s| - 1])
  }

  /** Reading back the decimal rendering gives the number. */
  lemma {:induction false} DecimalRoundTrip(n: nat)
    ensures DecimalValue(NatToString(n)) == n
    decreases n
  {
    var s := NatToString(n);
    if n >= 10 {
      DecimalRoundTrip(n / 10);
      assert s[..|s| - 1] == NatToString(n / 10);
    }
  }

  /** Distinct numbers have distinct renderings. */
  lemma NatToStringInjective(a: nat, b: nat)
    requires NatToString(a) == NatToString(b)
    ensures a == b
  {
    DecimalRoundTrip(a);
    DecimalRoundTrip(b);
  }

  /** `str(i)` for any integer. */
  function IntToString(i: int): (r: string)
    ensures |r| >= 1
    ensures i < 0 <==> r[0] == '-'
  {
    if i < 0 then "-" + NatToString(-i) else NatToString(i)
  }

  /** Distinct integers have distinct renderings. */
  lemma IntToStringInjective(a: int, b: int)
    requires IntToString(a) == IntToString(b)
    ensures a == b
  {
    if a < 0 {
      assert IntToString(a)[1..] == NatToString(-a);
      assert IntToString(b)[1..] == NatToString(-b);
      NatToStringInjective(-a, -b);
    } else {
      NatToStringInjective(a, b);
    }
  }

  function Repeat(ch: char, n: nat): (r: string)
    ensures |r| == n
    ensures forall i :: 0 <= i < n ==> r[i] == ch
  {
    seq(n, _ => ch)
  }

  /** `'%0{w}d' % n` for a non-negative `n`. */
  function ZeroPad(n: nat, w: nat): (r: string)
    ensures |r| == if |NatToString(n)| >= w then |NatToString(n)| else w
    ensures forall i :: 0 <= i < |r| ==> IsDigit(r[i])
  {
    var s := NatToString(n);
    if |s| >= w then s else Repeat('0', w - |s|) + s
  }

  predicate StartsWith(s: string, prefix: string) {
    |prefix| <= |s| && s[..|prefix|] == prefix
  }

  /** Python's `<=` on strings: lexicographic by code point. */
  predicate LexLe(a: string, b: string)
    decreases |a|
  {
    if |a| == 0 then true
    else if |b| == 0 then false
    else if a[0] != b[0] then a[0] < b[0]
    else LexLe(a[1..], b[1..])
  }

  lemma {:induction false} LexLeTotal(a: string, b: string)
    ensures LexLe(a, b) || LexLe(b, a)
    decreases |a|
  {
    if |a| > 0 && |b| > 0 && a[0] == b[0] {
      LexLeTotal(a[1..], b[1..]);
    }
  }

  lemma {:induction false} LexLeTransitive(a: string, b: string, c: string)
    requires LexLe(a, b) && LexLe(b, c)
    ensures LexLe(a, c)
    decreases |a|
  {
    if |a| > 0 && |b| > 0 && |c| > 0 && a[0] == b[0] && b[0] == c[0] {
      LexLeTransitive(a[1..], b[1..], c[1..]);
    }
  }

  lemma {:induction false} LexLeAntisymmetric(a: string, b: string)
    requires LexLe(a, b) && LexLe(b, a)
    ensures a == b
    decreases |a|
  {
    if |a| > 0 && |b| > 0 {
      LexLeAntisymmetric(a[1..], b[1..]);
      assert a == [a[0]] + a[1..] && b == [b[0]] + b[1..];
    }
  }

  /** A common suffix cancels. */
  lemma SuffixCancel(w1: string, w2: string, c: string)
    requires w1 + c == w2 + c
    ensures w1 == w2
  {
    assert w1 == (w1 + c)[..|w1|];
    assert w2 == (w2 + c)[..|w2|];
  }

  /** A common prefix cancels. */
  lemma PrefixCancel(p: string, x1: string, x2: string)
    requires p + x1 == p + x2
    ensures x1 == x2
  {
    assert x1 == (p + x1)[|p|..];
    assert x2 == (p + x2)[|p|..];
  }

  /** A rendered integer holds digits and at most a leading minus sign. */
  lemma IntToStringAvoids(i: int, c: char)
    requires !IsDigit(c) && c != '-'
    ensures c !in IntToString(i)
  {
    var s := IntToString(i);
    if i < 0 {
      assert s == "-" + NatToString(-i);
      forall k | 1 <= k < |s| ensures IsDigit(s[k]) {
        assert s[k] == NatToString(-i)[k - 1];
      }
    }
  }

  /** Where the last component of a `/`-separated path starts: just after
      its last `/`, or at 0 when it has none. */
  function SegmentStart(p: string): (k: nat)
    ensures k <= |p|
    ensures k > 0 ==> p[k - 1] == '/'
    ensures forall j :: k <= j < |p| ==> p[j] != '/'
    decreases |p|
  {
    if |p| == 0 then 0
    else if p[|p| - 1] == '/' then |p|
    else SegmentStart(p[..|p| - 1])
  }

  /** The last component of a `/`-separated path (`os.path.split(p)[-1]`,
      `Path(p).name`): the text after the last `/`, or all of `p` when it
      has none. */
  function LastSegment(p: string): (r: string)
    ensures forall k :: 0 <= k < |r| ==> r[k] != '/'
    ensures |r| <= |p| && r == p[|p| - |r|..]
    ensures |r| < |p| ==> p[|p| - |r| - 1] == '/'
  {
    p[SegmentStart(p)..]
  }

  /** A path ending in `/` and a segment without one has that segment as
      its last. */
  lemma LastSegmentOf(dir: string, name: string)
    requires '/' !in name
    ensures LastSegment(dir + "/" + name) == name
  {
    var p := dir + "/" + name;
    SegmentStartAfter(dir + "/", name);
    assert p[|dir| + 1..] == name;
  }

  lemma {:induction false} SegmentStartAfter(head: string, name: string)
    requires |head| > 0 && head[|head| - 1] == '/'
    requires '/' !in name
    ensures SegmentStart(head + name) == |head|
    decreases |name|
  {
    var p := head + name;
    if |name| == 0 {
      assert p == head;
    } else {
      assert p[..|p| - 1] == head + name[..|name| - 1];
      assert p[|p| - 1] == name[|name| - 1];
      SegmentStartAfter(head, name[..|name| - 1]);
    }
  }
}
