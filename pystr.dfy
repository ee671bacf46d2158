/** The Python string, path and integer-conversion primitives the modelled
    code relies on (`str.split`, `str.splitlines`, `str.lower`, `os.path`,
    `pathlib`, `int()`, `urllib.parse`); case mapping, line breaks, unquoting
    and digits are the ASCII ones. */
module PyStr {
  import opened Common

  // ---------------------------------------------------------------------
  // Characters

  /** `str.isspace`: the characters `str.split()` and `str.strip()` treat as
      whitespace (Unicode categories Zs, Zl, Zp and the bidirectional
      classes WS, B, S). */
  predicate IsSpace(c: char) {
    var n := c as int;
    c == ' ' || 9 <= n <= 13 || 0x1c <= n <= 0x1f || n == 0x85 || n == 0xa0
    || n == 0x1680 || 0x2000 <= n <= 0x200a || n == 0x2028 || n == 0x2029
    || n == 0x202f || n == 0x205f || n == 0x3000
  }

  /** An ASCII decimal digit; the other Unicode decimal digits that `\d`
      and `int()` accept are not modelled. */
  predicate IsDigit(c: char) { '0' <= c <= '9' }

  function DigitValue(c: char): nat
    requires IsDigit(c)
  {
    c as int - '0' as int
  }

  function LowerChar(c: char): char {
    if 'A' <= c <= 'Z' then (c as int + 32) as char else c
  }

  /** `str.lower` (ASCII letters only). */
  function Lower(s: string): (r: string)
    ensures |r| == |s|
    ensures forall i :: 0 <= i < |s| ==> r[i] == LowerChar(s[i])
  {
    if s == [] then [] else [LowerChar(s[0])] + Lower(s[1..])
  }

  lemma LowerIdempotent(s: string)
    ensures Lower(Lower(s)) == Lower(s)
  {
  }

  lemma {:induction false} LowerConcat(a: string, b: string)
    ensures Lower(a + b) == Lower(a) + Lower(b)
  {
    var l, la, lb := Lower(a + b), Lower(a), Lower(b);
    assert |l| == |la + lb|;
    forall i | 0 <= i < |l| ensures l[i] == (la + lb)[i] {
      if i < |a| {
        assert l[i] == LowerChar((a + b)[i]) == LowerChar(a[i]) == la[i];
      } else {
        assert l[i] == LowerChar((a + b)[i]) == LowerChar(b[i - |a|]) == lb[i - |a|];
      }
    }
  }

  // ---------------------------------------------------------------------
  // Prefixes, suffixes, stripping

  predicate StartsWith(s: string, p: string) {
    |p| <= |s| && s[..|p|] == p
  }

  predicate EndsWith(s: string, p: string) {
    |p| <= |s| && s[|s| - |p|..] == p
  }

  lemma EndsWithConcat(a: string, p: string)
    ensures EndsWith(a + p, p)
  {
    assert (a + p)[|a|..] == p;
  }

  /** A suffix of `b` is a suffix of anything ending in `b`. */
  lemma EndsWithPrepend(a: string, b: string, p: string)
    requires EndsWith(b, p)
    ensures EndsWith(a + b, p)
  {
    assert (a + b)[|a + b| - |p|..] == b[|b| - |p|..];
  }

  function LStrip(s: string): string
    decreases |s|
  {
    if s != [] && IsSpace(s[0]) then LStrip(s[1..]) else s
  }

  function RStrip(s: string): string
    decreases |s|
  {
    if s != [] && IsSpace(s[|s| - 1]) then RStrip(s[..|s| - 1]) else s
  }

  /** `str.strip()` */
  function Strip(s: string): string {
    RStrip(LStrip(s))
  }

  // ---------------------------------------------------------------------
  // Splitting and joining

  /** A token of `str.split()`: non-empty and free of whitespace. */
  predicate IsToken(t: string) {
    t != [] && forall i :: 0 <= i < |t| ==> !IsSpace(t[i])
  }

  predicate NoSpace(t: string) {
    forall i :: 0 <= i < |t| ==> !IsSpace(t[i])
  }

  function SplitAcc(s: string, cur: string): (r: seq<string>)
    requires NoSpace(cur)
    ensures forall i :: 0 <= i < |r| ==> IsToken(r[i])
    decreases |s|
  {
    if s == [] then (if cur == [] then [] else [cur])
    else if IsSpace(s[0]) then (if cur == [] then [] else [cur]) + SplitAcc(s[1..], [])
    else SplitAcc(s[1..], cur + [s[0]])
  }

  /** `str.split()` with no separator: the maximal runs of non-whitespace. */
  function Split(s: string): (r: seq<string>)
    ensures forall i :: 0 <= i < |r| ==> IsToken(r[i])
  {
    SplitAcc(s, [])
  }

  /** `sep.join(items)` */
  function Join(sep: string, items: seq<string>): string {
    if |items| == 0 then ""
    else if |items| == 1 then items[0]
    else items[0] + sep + Join(sep, items[1..])
  }

  /** Joining one more item appends the separator and the item. */
  lemma {:induction false} JoinSnoc(sep: string, items: seq<string>, x: string)
    requires items != []
    ensures Join(sep, items + [x]) == Join(sep, items) + sep + x
    decreases |items|
  {
    if |items| > 1 {
      assert (items + [x])[1..] == items[1..] + [x];
      JoinSnoc(sep, items[1..], x);
    } else {
      assert (items + [x])[1..] == [x];
    }
  }

  lemma {:induction false} SplitAccWord(t: string, rest: string, cur: string)
    requires NoSpace(t) && NoSpace(cur)
    ensures SplitAcc(t + rest, cur) == SplitAcc(rest, cur + t)
    decreases |t|
  {
    if t == [] {
      assert t + rest == rest;
      assert cur + t == cur;
    } else {
      assert (t + rest)[0] == t[0];
      assert (t + rest)[1..] == t[1..] + rest;
      SplitAccWord(t[1..], rest, cur + [t[0]]);
      assert cur + [t[0]] + t[1..] == cur + t;
    }
  }

  lemma {:induction false} SplitAccBlank(w: string, rest: string, cur: string)
    requires w != [] && forall i :: 0 <= i < |w| ==> IsSpace(w[i])
    requires NoSpace(cur)
    ensures SplitAcc(w + rest, cur) == (if cur == [] then [] else [cur]) + SplitAcc(rest, [])
    decreases |w|
  {
    assert (w + rest)[0] == w[0];
    assert (w + rest)[1..] == w[1..] + rest;
    if |w| > 1 {
      SplitAccBlank(w[1..], rest, []);
    } else {
      assert w[1..] + rest == rest;
    }
  }

  /** Splitting tokens joined by a whitespace separator gives the tokens back. */
  lemma {:induction false} SplitJoin(sep: string, ts: seq<string>)
    requires sep != [] && forall i :: 0 <= i < |sep| ==> IsSpace(sep[i])
    requires forall i :: 0 <= i < |ts| ==> IsToken(ts[i])
    ensures Split(Join(sep, ts)) == ts
    decreases |ts|
  {
    if |ts| == 1 {
      SplitAccWord(ts[0], [], []);
      assert ts[0] + [] == ts[0];
      assert [] + ts[0] == ts[0];
    } else if |ts| > 1 {
      var rest := Join(sep, ts[1..]);
      assert Join(sep, ts) == ts[0] + (sep + rest);
      SplitAccWord(ts[0], sep + rest, []);
      assert [] + ts[0] == ts[0];
      SplitAccBlank(sep, rest, ts[0]);
      SplitJoin(sep, ts[1..]);
      assert ts == [ts[0]] + ts[1..];
    }
  }

  lemma {:induction false} SplitAccAround(a: string, c: char, b: string, cur: string)
    requires IsSpace(c) && NoSpace(cur)
    ensures SplitAcc(a + [c] + b, cur) == SplitAcc(a, cur) + SplitAcc(b, [])
    decreases |a|
  {
    if a == [] {
      assert a + [c] + b == [c] + b;
      assert ([c] + b)[1..] == b;
    } else {
      assert (a + [c] + b)[0] == a[0];
      assert (a + [c] + b)[1..] == a[1..] + [c] + b;
      if IsSpace(a[0]) {
        SplitAccAround(a[1..], c, b, []);
      } else {
        SplitAccAround(a[1..], c, b, cur + [a[0]]);
      }
    }
  }

  /** A whitespace character separates: the tokens of `a c b` are those of
      `a` followed by those of `b`. */
  lemma SplitAround(a: string, c: char, b: string)
    requires IsSpace(c)
    ensures Split(a + [c] + b) == Split(a) + Split(b)
  {
    SplitAccAround(a, c, b, []);
  }

  lemma SplitToken(t: string)
    requires IsToken(t)
    ensures Split(t) == [t]
  {
    SplitAccWord(t, [], []);
    assert t + [] == t;
    assert [] + t == t;
  }

  function SplitOnAcc(s: string, sep: char, cur: string): (r: seq<string>)
    ensures |r| >= 1
    decreases |s|
  {
    if s == [] then [cur]
    else if s[0] == sep then [cur] + SplitOnAcc(s[1..], sep, [])
    else SplitOnAcc(s[1..], sep, cur + [s[0]])
  }

  /** `s.split(sep)` for a one-character separator; never empty. */
  function SplitOn(s: string, sep: char): (r: seq<string>)
    ensures |r| >= 1
  {
    SplitOnAcc(s, sep, [])
  }

  lemma {:induction false} SplitOnAccLastNoSep(s: string, sep: char, cur: string)
    requires sep !in cur
    ensures sep !in Last(SplitOnAcc(s, sep, cur))
    decreases |s|
  {
    if s == [] {
    } else if s[0] == sep {
      SplitOnAccLastNoSep(s[1..], sep, []);
    } else {
      SplitOnAccLastNoSep(s[1..], sep, cur + [s[0]]);
    }
  }

  lemma {:induction false} SplitOnAccLastSuffix(s: string, sep: char, cur: string)
    ensures EndsWith(cur + s, Last(SplitOnAcc(s, sep, cur)))
    decreases |s|
  {
    if s == [] {
      assert cur + s == cur;
    } else if s[0] == sep {
      var rest := SplitOnAcc(s[1..], sep, []);
      assert SplitOnAcc(s, sep, cur) == [cur] + rest;
      SplitOnAccLastSuffix(s[1..], sep, []);
      assert [] + s[1..] == s[1..];
      SuffixAfterSep(cur, s, Last(rest));
    } else {
      SplitOnAccLastSuffix(s[1..], sep, cur + [s[0]]);
      assert cur + [s[0]] + s[1..] == cur + s;
    }
  }

  lemma SuffixAfterSep(cur: string, s: string, l: string)
    requires s != [] && EndsWith(s[1..], l)
    ensures EndsWith(cur + s, l)
  {
    EndsWithPrepend(cur + [s[0]], s[1..], l);
    assert cur + [s[0]] + s[1..] == cur + s;
  }

  /** The last field of `s.split(sep)` holds no separator and ends `s`. */
  lemma SplitOnLast(s: string, sep: char)
    ensures sep !in Last(SplitOn(s, sep))
    ensures EndsWith(s, Last(SplitOn(s, sep)))
  {
    SplitOnAccLastNoSep(s, sep, []);
    SplitOnAccLastSuffix(s, sep, []);
    assert [] + s == s;
  }

  lemma {:induction false} SplitOnAccAround(a: string, sep: char, b: string, cur: string)
    ensures SplitOnAcc(a + [sep] + b, sep, cur) == SplitOnAcc(a, sep, cur) + SplitOnAcc(b, sep, [])
    decreases |a|
  {
    if a == [] {
      assert a + [sep] + b == [sep] + b;
      assert ([sep] + b)[1..] == b;
    } else {
      assert (a + [sep] + b)[0] == a[0];
      assert (a + [sep] + b)[1..] == a[1..] + [sep] + b;
      if a[0] == sep {
        SplitOnAccAround(a[1..], sep, b, []);
      } else {
        SplitOnAccAround(a[1..], sep, b, cur + [a[0]]);
      }
    }
  }

  lemma {:induction false} SplitOnAccPlain(a: string, sep: char, cur: string)
    requires sep !in a
    ensures SplitOnAcc(a, sep, cur) == [cur + a]
    decreases |a|
  {
    if a == [] {
      assert cur + a == cur;
    } else {
      assert a[0] != sep;
      SplitOnAccPlain(a[1..], sep, cur + [a[0]]);
      assert cur + [a[0]] + a[1..] == cur + a;
    }
  }

  lemma {:induction false} SplitOnAccFirst(s: string, sep: char, cur: string)
    requires sep !in cur
    ensures sep !in SplitOnAcc(s, sep, cur)[0]
    ensures StartsWith(cur + s, SplitOnAcc(s, sep, cur)[0])
    decreases |s|
  {
    if s == [] {
      assert cur + s == cur;
    } else if s[0] == sep {
      assert (cur + s)[..|cur|] == cur;
    } else {
      SplitOnAccFirst(s[1..], sep, cur + [s[0]]);
      assert cur + [s[0]] + s[1..] == cur + s;
    }
  }

  /** The first field of `s.split(sep)` holds no separator and starts `s`;
      it is all of `s` when `s` has no separator. */
  lemma SplitOnFirst(s: string, sep: char)
    ensures sep !in SplitOn(s, sep)[0]
    ensures StartsWith(s, SplitOn(s, sep)[0])
    ensures sep !in s ==> SplitOn(s, sep)[0] == s
  {
    SplitOnAccFirst(s, sep, []);
    assert [] + s == s;
    if sep !in s {
      SplitOnAccPlain(s, sep, []);
    }
  }

  /** Two separator-free fields joined by the separator split back apart. */
  lemma SplitOnPair(a: string, sep: char, b: string)
    requires sep !in a && sep !in b
    ensures SplitOn(a + [sep] + b, sep) == [a, b]
  {
    SplitOnAccAround(a, sep, b, []);
    SplitOnAccPlain(a, sep, []);
    SplitOnAccPlain(b, sep, []);
    assert [] + a == a;
    assert [] + b == b;
  }

  function LinesAcc(s: string, cur: string): seq<string>
    decreases |s|
  {
    if s == [] then (if cur == [] then [] else [cur])
    else if s[0] == '\n' then [cur] + LinesAcc(s[1..], [])
    else LinesAcc(s[1..], cur + [s[0]])
  }

  /** `str.splitlines()` with '\n' as the line boundary: a final newline does
      not start an empty line, and the empty string has no lines. */
  function SplitLines(s: string): seq<string> {
    LinesAcc(s, [])
  }

  /** Lines each terminated by '\n'. */
  function Unlines(lines: seq<string>): string {
    if lines == [] then "" else lines[0] + "\n" + Unlines(lines[1..])
  }

  lemma {:induction false} LinesAccLine(l: string, rest: string, cur: string)
    requires '\n' !in l
    ensures LinesAcc(l + "\n" + rest, cur) == [cur + l] + LinesAcc(rest, [])
    decreases |l|
  {
    if l == [] {
      assert l + "\n" + rest == "\n" + rest;
      assert cur + l == cur;
    } else {
      assert (l + "\n" + rest)[0] == l[0];
      assert (l + "\n" + rest)[1..] == l[1..] + "\n" + rest;
      LinesAccLine(l[1..], rest, cur + [l[0]]);
      assert cur + [l[0]] + l[1..] == cur + l;
    }
  }

  /** Splitting newline-terminated lines gives the lines back. */
  lemma {:induction false} SplitLinesUnlines(lines: seq<string>)
    requires forall i :: 0 <= i < |lines| ==> '\n' !in lines[i]
    ensures SplitLines(Unlines(lines)) == lines
    decreases |lines|
  {
    if lines != [] {
      LinesAccLine(lines[0], Unlines(lines[1..]), []);
      assert [] + lines[0] == lines[0];
      SplitLinesUnlines(lines[1..]);
      assert lines == [lines[0]] + lines[1..];
    }
  }

  function Last<T>(s: seq<T>): T
    requires |s| > 0
  {
    s[|s| - 1]
  }

  // ---------------------------------------------------------------------
  // Paths and URLs

  /** `os.path.basename`: the text after the last '/'. */
  function Basename(p: string): (r: string)
    ensures '/' !in r
    ensures |r| <= |p| && p[|p| - |r|..] == r
  {
    if p == [] then []
    else if p[|p| - 1] == '/' then []
    else Basename(p[..|p| - 1]) + [p[|p| - 1]]
  }

  /** `os.path.join(a, b)` for two components. */
  function PathJoin(a: string, b: string): string {
    if StartsWith(b, "/") then b
    else if a == [] || EndsWith(a, "/") then a + b
    else a + "/" + b
  }

  /** A character other than '/' extends the basename. */
  lemma BasenameSnoc(q: string, c: char)
    requires c != '/'
    ensures Basename(q + [c]) == Basename(q) + [c]
  {
    assert (q + [c])[..|q|] == q;
  }

  lemma {:induction false} BasenameAfterSlash(pre: string, name: string)
    requires '/' !in name
    requires pre == [] || pre[|pre| - 1] == '/'
    ensures Basename(pre + name) == name
    decreases |name|
  {
    if name == [] {
      assert pre + name == pre;
    } else {
      var n' := name[..|name| - 1];
      var c := name[|name| - 1];
      assert name == n' + [c];
      assert pre + name == (pre + n') + [c];
      BasenameSnoc(pre + n', c);
      BasenameAfterSlash(pre, n');
    }
  }

  /** `os.path.basename` gives back a name joined onto any directory. */
  lemma BasenameOfJoin(dir: string, name: string)
    requires '/' !in name && name != []
    ensures Basename(PathJoin(dir, name)) == name
  {
    assert !StartsWith(name, "/") by {
      assert name[..1][0] == name[0];
    }
    if dir == [] || EndsWith(dir, "/") {
      if dir != [] {
        assert dir[|dir| - 1] == dir[|dir| - 1..][0];
      }
      BasenameAfterSlash(dir, name);
    } else {
      assert dir + "/" + name == (dir + "/") + name;
      BasenameAfterSlash(dir + "/", name);
    }
  }

  /** Path joins under one directory are injective on relative names. */
  lemma PathJoinInjective(dir: string, a: string, b: string)
    requires !StartsWith(a, "/") && !StartsWith(b, "/")
    requires PathJoin(dir, a) == PathJoin(dir, b)
    ensures a == b
  {
    var pre := if dir == [] || EndsWith(dir, "/") then dir else dir + "/";
    assert PathJoin(dir, a) == pre + a;
    assert PathJoin(dir, b) == pre + b;
    assert a == (pre + a)[|pre|..];
    assert b == (pre + b)[|pre|..];
  }

  function LastNamed(segs: seq<string>): string {
    if segs == [] then ""
    else if Last(segs) == "" || Last(segs) == "." then LastNamed(segs[..|segs| - 1])
    else Last(segs)
  }

  /** `pathlib.PurePosixPath(p).name`: the last component, ignoring empty and
      '.' components (so a trailing '/' is ignored). */
  function PathName(p: string): string {
    LastNamed(SplitOn(p, '/'))
  }

  /** Index of the last occurrence of `c`, or -1. */
  function LastIndex(s: string, c: char): (i: int)
    ensures -1 <= i < |s|
    ensures i >= 0 ==> s[i] == c
    ensures forall j :: i < j < |s| ==> s[j] != c
  {
    if s == [] then -1
    else if s[|s| - 1] == c then |s| - 1
    else LastIndex(s[..|s| - 1], c)
  }

  /** The last `c` in `a + [c] + b` is the one after `a` when `b` has none. */
  lemma {:induction false} LastIndexAt(a: string, c: char, b: string)
    requires c !in b
    ensures LastIndex(a + [c] + b, c) == |a|
    decreases |b|
  {
    if b != [] {
      var b' := b[..|b| - 1];
      assert (a + [c] + b)[..|a + [c] + b| - 1] == a + [c] + b';
      assert c !in b' by {
        forall i | 0 <= i < |b'| ensures b'[i] != c {
          assert b'[i] == b[i];
        }
      }
      LastIndexAt(a, c, b');
    }
  }

  /** The root part of `os.path.splitext(p)`: the extension starts at the last
      '.' of the last component, unless that component has only dots before it. */
  function SplitExtRoot(p: string): string {
    var sep := LastIndex(p, '/');
    var dot := LastIndex(p, '.');
    if dot > sep && exists k :: sep + 1 <= k < dot && p[k] != '.' then p[..dot] else p
  }

  /** `urljoin(base, rel)` for a relative reference `rel` without dot segments
      and a `base` that ends in '/': plain concatenation. */
  function UrlJoin(base: string, rel: string): string {
    base + rel
  }

  predicate IsHexDigit(c: char) {
    IsDigit(c) || 'a' <= c <= 'f' || 'A' <= c <= 'F'
  }

  function HexValue(c: char): nat
    requires IsHexDigit(c)
  {
    if IsDigit(c) then DigitValue(c)
    else if 'a' <= c <= 'f' then c as int - 'a' as int + 10
    else c as int - 'A' as int + 10
  }

  /** `urllib.parse.unquote` for escapes of ASCII characters: every `%XX`
      with a value below 0x80 becomes that character; anything else stays. */
  function Unquote(s: string): string
    decreases |s|
  {
    if |s| >= 3 && s[0] == '%' && IsHexDigit(s[1]) && IsHexDigit(s[2]) && HexValue(s[1]) < 8 then
      [(HexValue(s[1]) * 16 + HexValue(s[2])) as char] + Unquote(s[3..])
    else if s == [] then []
    else [s[0]] + Unquote(s[1..])
  }

  lemma UnquotePlain(s: string)
    requires '%' !in s
    ensures Unquote(s) == s
  {
  }

  // ---------------------------------------------------------------------
  // Integers and their decimal text

  predicate AllDigits(s: string) {
    forall i :: 0 <= i < |s| ==> IsDigit(s[i])
  }

  function DigitsValue(s: string): nat
    requires AllDigits(s)
  {
    if s == [] then 0 else DigitsValue(s[..|s| - 1]) * 10 + DigitValue(s[|s| - 1])
  }

  /** Decimal text of a natural number, as `str(n)`. */
  function NatToString(n: nat): (r: string)
    ensures r != [] && AllDigits(r)
  {
    if n < 10 then [('0' as int + n) as char]
    else NatToString(n / 10) + [('0' as int + n % 10) as char]
  }

  /** `str(i)` / `f'{i}'` for an integer. */
  function IntToString(i: int): string {
    if i < 0 then "-" + NatToString(-i) else NatToString(i)
  }

  lemma {:induction false} DigitsValueOfNatToString(n: nat)
    ensures DigitsValue(NatToString(n)) == n
  {
    if n >= 10 {
      DigitsValueOfNatToString(n / 10);
      var s := NatToString(n);
      assert s[..|s| - 1] == NatToString(n / 10);
    }
  }

  /** The leading run of ASCII digits. */
  function DigitPrefix(s: string): (r: string)
    ensures AllDigits(r) && |r| <= |s| && s[..|r|] == r
    ensures |r| < |s| ==> !IsDigit(s[|r|])
  {
    if s != [] && IsDigit(s[0]) then [s[0]] + DigitPrefix(s[1..]) else []
  }

  lemma {:induction false} DigitPrefixOf(d: string, rest: string)
    requires AllDigits(d)
    requires rest == [] || !IsDigit(rest[0])
    ensures DigitPrefix(d + rest) == d
    decreases |d|
  {
    if d != [] {
      assert (d + rest)[1..] == d[1..] + rest;
      DigitPrefixOf(d[1..], rest);
      assert d == [d[0]] + d[1..];
    } else {
      assert d + rest == rest;
    }
  }

  /** `int(s)` on a string: surrounding whitespace, an optional sign and at
      least one ASCII digit; anything else is a ValueError. */
  function ParseInt(s: string): (r: Result<int>)
    ensures r.Failure? ==> r.error.ValueError?
  {
    var t := Strip(s);
    var neg := StartsWith(t, "-");
    var body := if StartsWith(t, "-") || StartsWith(t, "+") then t[1..] else t;
    if body != [] && AllDigits(body) then
      Success(if neg then -(DigitsValue(body) as int) else DigitsValue(body) as int)
    else Failure(ValueError("invalid literal for int()"))
  }

  lemma StripNoSpaceEnds(s: string)
    requires s != [] && !IsSpace(s[0]) && !IsSpace(s[|s| - 1])
    ensures Strip(s) == s
  {
  }

  /** `int(str(i)) == i` */
  lemma ParseIntOfIntToString(i: int)
    ensures ParseInt(IntToString(i)) == Success(i)
  {
    var s := IntToString(i);
    var n: nat := if i < 0 then -i else i;
    var d := NatToString(n);
    DigitsValueOfNatToString(n);
    assert !IsSpace(s[|s| - 1]) by {
      assert s[|s| - 1] == d[|d| - 1];
    }
    StripNoSpaceEnds(s);
    if i < 0 {
      assert s[1..] == d;
    } else {
      assert !StartsWith(d, "-") && !StartsWith(d, "+") by {
        assert IsDigit(d[0]);
      }
    }
  }
}
