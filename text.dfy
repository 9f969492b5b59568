/** Option values, used for Go's nil-able results. */
module Optional {
  datatype Option<T> = None | Some(value: T)
}

/**
 * The string operations the tool relies on from Go's standard library:
 * strings.Split with a one-character separator, %d formatting of integers
 * and filepath.Base (Unix separators).
 */
module Text {

  /** Number of occurrences of c in s. */
  function Count(s: string, c: char): nat
  {
    if s == [] then 0 else (if s[0] == c then 1 else 0) + Count(s[1..], c)
  }

  /**
   * strings.Split(s, [sep]): the maximal pieces of s between separators.
   * Splitting the empty string yields one empty piece.
   */
  function Split(s: string, sep: char): (parts: seq<string>)
    ensures |parts| == Count(s, sep) + 1
    ensures forall k :: 0 <= k < |parts| ==> sep !in parts[k]
  {
    if s == [] then [[]]
    else
      var rest := Split(s[1..], sep);
      if s[0] == sep then [[]] + rest
      else [[s[0]] + rest[0]] + rest[1..]
  }

  /** strings.Join(parts, [sep]), the inverse of Split. */
  function Join(parts: seq<string>, sep: char): string
  {
    if parts == [] then []
    else if |parts| == 1 then parts[0]
    else parts[0] + [sep] + Join(parts[1..], sep)
  }

  /** Joining the pieces of a split gives the original string back. */
  lemma {:induction false} JoinSplit(s: string, sep: char)
    ensures Join(Split(s, sep), sep) == s
  {
    if s != [] {
      var rest := Split(s[1..], sep);
      JoinSplit(s[1..], sep);
      if s[0] == sep {
        assert Split(s, sep) == [[]] + rest;
      } else {
        var parts := Split(s, sep);
        assert parts == [[s[0]] + rest[0]] + rest[1..];
        if |rest| > 1 {
          assert Join(rest, sep) == rest[0] + [sep] + Join(rest[1..], sep);
          assert parts[1..] == rest[1..];
        }
      }
    }
  }

  /** A string free of the separator splits into itself alone. */
  lemma {:induction false} SplitPlain(p: string, sep: char)
    requires sep !in p
    ensures Split(p, sep) == [p]
  {
    if p != [] {
      SplitPlain(p[1..], sep);
      assert p[0] != sep;
      assert [p[0]] + p[1..] == p;
    }
  }

  /** A separator-free head followed by the separator splits off as one piece. */
  lemma {:induction false} SplitHead(p: string, sep: char, t: string)
    requires sep !in p
    ensures Split(p + [sep] + t, sep) == [p] + Split(t, sep)
  {
    if p == [] {
      assert p + [sep] + t == [sep] + t;
      assert ([sep] + t)[1..] == t;
    } else {
      SplitHead(p[1..], sep, t);
      assert (p + [sep] + t)[1..] == p[1..] + [sep] + t;
      assert [p[0]] + p[1..] == p;
    }
  }

  /** Splitting a join of separator-free pieces gives the pieces back. */
  lemma {:induction false} SplitJoin(parts: seq<string>, sep: char)
    requires |parts| >= 1
    requires forall k :: 0 <= k < |parts| ==> sep !in parts[k]
    ensures Split(Join(parts, sep), sep) == parts
  {
    if |parts| == 1 {
      SplitPlain(parts[0], sep);
    } else {
      SplitJoin(parts[1..], sep);
      SplitHead(parts[0], sep, Join(parts[1..], sep));
      assert [parts[0]] + parts[1..] == parts;
    }
  }

  /** The first piece of a split is the longest separator-free prefix. */
  lemma {:induction false} SplitFirst(s: string, sep: char)
    ensures |Split(s, sep)[0]| <= |s|
    ensures Split(s, sep)[0] == s[..|Split(s, sep)[0]|]
    ensures sep in s ==> s[|Split(s, sep)[0]|] == sep
    ensures sep !in s ==> Split(s, sep)[0] == s
  {
    if s != [] {
      SplitFirst(s[1..], sep);
      if s[0] != sep {
        assert s == [s[0]] + s[1..];
      }
    }
  }

  // ---- %d formatting of integers ----

  function DigitChar(d: nat): char
    requires d < 10
  {
    (48 + d) as char
  }

  function DigitValue(c: char): int
  {
    c as int - 48
  }

  /** The decimal digits of n, most significant first, without leading zeros. */
  function NatString(n: nat): (s: string)
    ensures |s| >= 1
    ensures forall k :: 0 <= k < |s| ==> '0' <= s[k] <= '9'
  {
    if n < 10 then [DigitChar(n)] else NatString(n / 10) + [DigitChar(n % 10)]
  }

  /** fmt's %d verb: a minus sign for negative values, then the digits. */
  function IntString(n: int): (s: string)
    ensures |s| >= 1 && (s[0] == '-' <==> n < 0)
    ensures n < 0 ==> |s| >= 2
    ensures forall k :: (if n < 0 then 1 else 0) <= k < |s| ==> '0' <= s[k] <= '9'
  {
    if n < 0 then "-" + NatString(-n) else NatString(n)
  }

  /** Reads back a string of decimal digits. */
  function ParseNat(s: string): int
  {
    if s == [] then 0 else ParseNat(s[..|s| - 1]) * 10 + DigitValue(s[|s| - 1])
  }

  /** Reads back what IntString writes. */
  function ParseInt(s: string): int
  {
    if s != [] && s[0] == '-' then -ParseNat(s[1..]) else ParseNat(s)
  }

  lemma {:induction false} ParseNatString(n: nat)
    ensures ParseNat(NatString(n)) == n
  {
    if n >= 10 {
      ParseNatString(n / 10);
      var s := NatString(n);
      assert s[..|s| - 1] == NatString(n / 10);
    }
  }

  /** %d is invertible: formatting then parsing returns the number. */
  lemma IntStringRoundTrip(n: int)
    ensures ParseInt(IntString(n)) == n
  {
    if n < 0 {
      ParseNatString(-n);
      assert IntString(n)[1..] == NatString(-n);
    } else {
      ParseNatString(n);
    }
  }

  /** Distinct integers are formatted differently. */
  lemma IntStringInjective(a: int, b: int)
    requires IntString(a) == IntString(b)
    ensures a == b
  {
    IntStringRoundTrip(a);
    IntStringRoundTrip(b);
  }

  // ---- filepath.Base with '/' as the only separator ----

  /** p without its trailing slashes: a prefix of p, followed in p only by slashes. */
  function TrimTrailingSlashes(p: string): (r: string)
    ensures |r| <= |p| && r == p[..|r|]
    ensures r == [] || r[|r| - 1] != '/'
    ensures forall k :: |r| <= k < |p| ==> p[k] == '/'
  {
    if p != [] && p[|p| - 1] == '/' then TrimTrailingSlashes(p[..|p| - 1]) else p
  }

  /** Slashes appended to a path that does not end in one are exactly what the trim removes. */
  lemma {:induction false} TrimAppendedSlashes(p: string, s: string)
    requires p == [] || p[|p| - 1] != '/'
    requires forall k :: 0 <= k < |s| ==> s[k] == '/'
    ensures TrimTrailingSlashes(p + s) == p
    decreases |s|
  {
    if s == [] {
      assert p + s == p;
    } else {
      var init := s[..|s| - 1];
      assert (p + s)[..|p + s| - 1] == p + init;
      TrimAppendedSlashes(p, init);
    }
  }

  /** Trailing slashes do not change the base: Base("a/b/") == Base("a/b") == "b". */
  lemma BaseIgnoresTrailingSlashes(p: string, s: string)
    requires p != [] && p[|p| - 1] != '/'
    requires forall k :: 0 <= k < |s| ==> s[k] == '/'
    ensures Base(p + s) == Base(p)
  {
    TrimAppendedSlashes(p, s);
    TrimAppendedSlashes(p, []);
    assert p + [] == p;
  }

  /** The part of p after its last '/' (all of p when it has none). */
  function AfterLastSlash(p: string): (r: string)
    ensures '/' !in r
    ensures |r| <= |p| && r == p[|p| - |r|..]
    ensures '/' !in p ==> r == p
  {
    if p == [] || p[|p| - 1] == '/' then []
    else AfterLastSlash(p[..|p| - 1]) + [p[|p| - 1]]
  }

  /** filepath.Base: the last element of a path, "." for the empty path, "/" for a path of slashes. */
  function Base(path: string): (b: string)
    ensures b != []
    ensures b == "/" || '/' !in b
  {
    if path == [] then "."
    else
      var p := TrimTrailingSlashes(path);
      if p == [] then "/" else AfterLastSlash(p)
  }

  /** The base of dir/name is name, for a non-empty name without '/'. */
  lemma BaseOfJoin(dir: string, name: string)
    requires name != [] && '/' !in name
    ensures Base(dir + "/" + name) == name
  {
    var path := dir + "/" + name;
    assert path[|path| - 1] == name[|name| - 1];
    assert TrimTrailingSlashes(path) == path;
    var r := AfterLastSlash(path);
    assert path[|path| - |name|..] == name;
    AfterLastSlashBound(path, |dir|);
    if |r| < |name| {
      AfterLastSlashMaximal(path, |r|);
    }
  }

  /** AfterLastSlash stops only at a '/' or at the start of p. */
  lemma {:induction false} AfterLastSlashMaximal(p: string, n: nat)
    requires n == |AfterLastSlash(p)| < |p|
    ensures p[|p| - n - 1] == '/'
  {
    if p[|p| - 1] != '/' {
      AfterLastSlashMaximal(p[..|p| - 1], n - 1);
    }
  }

  /** AfterLastSlash never reaches back past a '/'. */
  lemma {:induction false} AfterLastSlashBound(p: string, i: nat)
    requires i < |p| && p[i] == '/'
    ensures |AfterLastSlash(p)| <= |p| - i - 1
  {
    if p[|p| - 1] != '/' {
      AfterLastSlashBound(p[..|p| - 1], i);
    }
  }

  /** A plain file name is its own base. */
  lemma BaseOfName(name: string)
    requires name != [] && '/' !in name
    ensures Base(name) == name
  {
  }
}
