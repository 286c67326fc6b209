/**
 * The pieces of Go's standard library that the core relies on, modelled for a
 * Unix host: `strings` (HasPrefix, HasSuffix, Join, ReplaceAll, ToLower),
 * `path/filepath` (Ext, Clean, Join, Dir, Base), `strconv.Atoi` on ASCII digit
 * strings and `fmt`'s `%x` verb. A Go string is a sequence of bytes; here it is
 * a `string` whose every char stands for one byte.
 */
module GoStd {

  // ---------------------------------------------------------------------------
  // Character classes of Go's RE2 syntax (ASCII only, as RE2 defines them)
  // ---------------------------------------------------------------------------

  /** `\d` */
  predicate IsDigit(c: char) { '0' <= c <= '9' }

  /** `\w`, that is `[0-9A-Za-z_]` */
  predicate IsWordChar(c: char) { IsDigit(c) || 'a' <= c <= 'z' || 'A' <= c <= 'Z' || c == '_' }

  /** `\s`, that is `[\t\n\f\r ]` */
  predicate IsSpace(c: char) { c == '\t' || c == '\n' || c as int == 0x0C || c == '\r' || c == ' ' }

  predicate IsLowerHexDigit(c: char) { IsDigit(c) || 'a' <= c <= 'f' }

  /** A non-empty run of `\w` characters. */
  predicate IsWord(s: string) { |s| > 0 && forall i :: 0 <= i < |s| ==> IsWordChar(s[i]) }

  // ---------------------------------------------------------------------------
  // package strings
  // ---------------------------------------------------------------------------

  predicate HasPrefix(s: string, prefix: string) { prefix <= s }

  predicate HasSuffix(s: string, suffix: string) { |suffix| <= |s| && s[|s| - |suffix|..] == suffix }

  /** strings.Join */
  function Join(xs: seq<string>, sep: string): string
  {
    if xs == [] then "" else if |xs| == 1 then xs[0] else xs[0] + sep + Join(xs[1..], sep)
  }

  /** strings.ReplaceAll(s, string(from), string(to)) for one-character patterns. */
  function ReplaceAllChar(s: string, from: char, to: char): (r: string)
    ensures |r| == |s|
    ensures forall i :: 0 <= i < |s| ==> r[i] == (if s[i] == from then to else s[i])
  {
    if s == [] then [] else [if s[0] == from then to else s[0]] + ReplaceAllChar(s[1..], from, to)
  }

  /** strings.ToLower restricted to ASCII letters; every other char is kept. */
  function ToLower(s: string): (r: string)
    ensures |r| == |s|
    ensures forall i :: 0 <= i < |s| ==> r[i] == (if 'A' <= s[i] <= 'Z' then (s[i] as int + 32) as char else s[i])
  {
    if s == [] then []
    else [if 'A' <= s[0] <= 'Z' then (s[0] as int + 32) as char else s[0]] + ToLower(s[1..])
  }

  lemma ToLowerOfLowerHex(s: string)
    requires forall i :: 0 <= i < |s| ==> IsLowerHexDigit(s[i])
    ensures ToLower(s) == s
  {
  }

  /** The two parts of a concatenation are its prefix and its suffix. */
  lemma ConcatAffixes(a: string, b: string)
    ensures HasPrefix(a + b, a) && HasSuffix(a + b, b)
  {
    assert (a + b)[..|a|] == a;
    assert (a + b)[|a|..] == b;
  }

  // ---------------------------------------------------------------------------
  // package path/filepath, Unix flavour ('/' is the only separator)
  // ---------------------------------------------------------------------------

  /**
   * filepath.Ext: the suffix starting at the last '.' of the last element of
   * the path, or "" when that element has no dot.
   */
  function Ext(path: string): (r: string)
    ensures HasSuffix(path, r)
    ensures r == [] || r[0] == '.'
    ensures forall i :: 0 <= i < |r| ==> r[i] != '/'
    ensures forall i :: 1 <= i < |r| ==> r[i] != '.'
  {
    ExtBefore(path, |path|)
  }

  /** filepath.Ext's backwards scan over path[..i]. */
  function ExtBefore(path: string, i: nat): (r: string)
    requires i <= |path|
    ensures |r| <= i && path[i - |r|..i] == r
    ensures r == [] || r[0] == '.'
    ensures forall k :: 0 <= k < |r| ==> r[k] != '/'
    ensures forall k :: 1 <= k < |r| ==> r[k] != '.'
  {
    if i == 0 || path[i - 1] == '/' then ""
    else if path[i - 1] == '.' then path[i - 1..i]
    else
      var r := ExtBefore(path, i - 1);
      if r == [] then []
      else
        assert path[i - 1 - |r|..i] == path[i - 1 - |r|..i - 1] + [path[i - 1]];
        r + [path[i - 1]]
  }

  /** An extension: a dot, then no further dot and no separator. */
  predicate IsExt(e: string)
  {
    |e| > 0 && e[0] == '.' && forall k :: 1 <= k < |e| ==> e[k] != '.' && e[k] != '/'
  }

  /** A path that ends in an extension has exactly that extension. */
  lemma ExtOfSuffix(path: string, e: string)
    requires IsExt(e) && HasSuffix(path, e)
    ensures Ext(path) == e
  {
    ExtBeforeSuffix(path, |path|, e);
  }

  lemma {:induction false} ExtBeforeSuffix(path: string, i: nat, e: string)
    requires IsExt(e) && |e| <= i <= |path| && path[i - |e|..i] == e
    ensures ExtBefore(path, i) == e
    decreases |e|
  {
    var last := |e| - 1;
    assert path[i - 1] == e[last] by {
      assert path[i - |e|..i][last] == path[i - 1];
    }
    if last > 0 {
      var shorter := e[..last];
      assert IsExt(shorter) by {
        assert forall k :: 0 <= k < |shorter| ==> shorter[k] == e[k];
      }
      assert path[i - 1 - |shorter|..i - 1] == shorter by {
        assert path[i - 1 - |shorter|..i - 1] == path[i - |e|..i][..last];
      }
      ExtBeforeSuffix(path, i - 1, shorter);
      assert e == shorter + [e[last]];
    }
  }

  /** A path as filepath.Clean leaves it, cut into its elements. An absolute
      path starts with the marker element "/", which no other element contains. */
  type Path = seq<string>

  /** strings.Split(s, "/") */
  function Split(s: string): (r: seq<string>)
    ensures |r| >= 1
    ensures forall k :: 0 <= k < |r| ==> '/' !in r[k]
    decreases |s|
  {
    if '/' !in s then [s]
    else
      var i := FirstSlash(s);
      [s[..i]] + Split(s[i + 1..])
  }

  function FirstSlash(s: string): (i: nat)
    requires '/' in s
    ensures i < |s| && s[i] == '/' && '/' !in s[..i]
  {
    if s[0] == '/' then 0 else 1 + FirstSlash(s[1..])
  }

  /** True when `acc` is an absolute cleaned path. */
  predicate Rooted(acc: Path) { acc != [] && acc[0] == "/" }

  /**
   * The lexical rules of filepath.Clean applied element by element to an
   * already clean prefix `acc`: empty and "." elements vanish, ".." removes the
   * preceding ordinary element, is dropped at the root of an absolute path and
   * is kept at the front of a relative one.
   */
  function CleanFrom(acc: Path, elems: seq<string>): Path
    decreases |elems|
  {
    if elems == [] then acc
    else
      var e := elems[0];
      if e == "" || e == "." then CleanFrom(acc, elems[1..])
      else if e == ".." then
        if acc != [] && acc[|acc| - 1] != ".." && acc[|acc| - 1] != "/" then CleanFrom(acc[..|acc| - 1], elems[1..])
        else if Rooted(acc) then CleanFrom(acc, elems[1..])
        else CleanFrom(acc + [".."], elems[1..])
      else CleanFrom(acc + [e], elems[1..])
  }

  /** The cleaned elements a path string names. */
  function Resolve(s: string): Path
  {
    CleanFrom(if s != [] && s[0] == '/' then ["/"] else [], Split(s))
  }

  /** The text of a cleaned path ("." for the empty relative path). */
  function Render(p: Path): string
  {
    if p == [] then "."
    else if p == ["/"] then "/"
    else if p[0] == "/" then "/" + Join(p[1..], "/")
    else Join(p, "/")
  }

  /** filepath.Clean */
  function Clean(s: string): string { Render(Resolve(s)) }

  /** filepath.Join: leading empty elements are ignored; an all-empty list gives "". */
  function PathJoin(elems: seq<string>): string
  {
    if elems == [] then ""
    else if elems[0] == "" then PathJoin(elems[1..])
    else Clean(Join(elems, "/"))
  }

  /** filepath.Dir: everything up to the last '/', cleaned. */
  function Dir(s: string): string
  {
    if '/' !in s then "." else Clean(s[..LastSlash(s) + 1])
  }

  function LastSlash(s: string): (i: nat)
    requires '/' in s
    ensures i < |s| && s[i] == '/' && '/' !in s[i + 1..]
  {
    if s[|s| - 1] == '/' then |s| - 1
    else
      assert '/' in s[..|s| - 1] by {
        var k :| 0 <= k < |s| && s[k] == '/';
        assert s[..|s| - 1][k] == '/';
      }
      LastSlash(s[..|s| - 1])
  }

  /** filepath.Base: the last element after trailing slashes are removed. */
  function Base(s: string): string
  {
    if s == "" then "."
    else
      var t := TrimTrailingSlashes(s);
      if t == "" then "/"
      else if '/' in t then t[LastSlash(t) + 1..]
      else t
  }

  function TrimTrailingSlashes(s: string): (t: string)
    ensures t <= s
  {
    if s != [] && s[|s| - 1] == '/' then TrimTrailingSlashes(s[..|s| - 1]) else s
  }

  // ---------------------------------------------------------------------------
  // strconv.Atoi on a string of ASCII digits
  // ---------------------------------------------------------------------------

  function DigitValue(c: char): nat requires IsDigit(c) { c as int - '0' as int }

  /** The decimal value of a digit string, unbounded. */
  function DecimalValue(s: string): nat
    requires forall i :: 0 <= i < |s| ==> IsDigit(s[i])
  {
    if s == [] then 0 else DecimalValue(s[..|s| - 1]) * 10 + DigitValue(s[|s| - 1])
  }

  /** The largest int on a 64-bit platform. */
  const MaxInt: nat := 0x7FFF_FFFF_FFFF_FFFF

  /**
   * strconv.Atoi on a non-empty digit string: a value beyond the int range
   * is reported as an error together with MaxInt, which callers that ignore
   * the error then use.
   */
  function Atoi(s: string): (r: nat)
    requires forall i :: 0 <= i < |s| ==> IsDigit(s[i])
    ensures r <= MaxInt
    ensures r == DecimalValue(s) || (r == MaxInt && DecimalValue(s) > MaxInt)
  {
    var v := DecimalValue(s);
    if v > MaxInt then MaxInt else v
  }

  /** Leading zeros do not change the value: "01" parses to 1. */
  lemma {:induction false} LeadingZeroIgnored(s: string)
    requires forall i :: 0 <= i < |s| ==> IsDigit(s[i])
    ensures DecimalValue("0" + s) == DecimalValue(s)
  {
    if s != [] {
      assert ("0" + s)[..|"0" + s| - 1] == "0" + s[..|s| - 1];
      LeadingZeroIgnored(s[..|s| - 1]);
    }
  }

  // ---------------------------------------------------------------------------
  // fmt's %x verb
  // ---------------------------------------------------------------------------

  function HexDigit(d: nat): (c: char)
    requires d < 16
    ensures IsLowerHexDigit(c)
  {
    if d < 10 then ('0' as int + d) as char else ('a' as int + d - 10) as char
  }

  function HexDigitValue(c: char): nat
    requires IsLowerHexDigit(c)
  {
    if IsDigit(c) then c as int - '0' as int else c as int - 'a' as int + 10
  }

  /** fmt.Sprintf("%x", n) for an unsigned integer: lowercase, no leading zeros. */
  function LowerHex(n: nat): (r: string)
    ensures |r| >= 1
    ensures forall i :: 0 <= i < |r| ==> IsLowerHexDigit(r[i])
    ensures r[0] == '0' ==> n == 0
  {
    if n < 16 then [HexDigit(n)] else LowerHex(n / 16) + [HexDigit(n % 16)]
  }

  /** The value a lowercase hex string denotes. */
  function HexValue(s: string): nat
    requires forall i :: 0 <= i < |s| ==> IsLowerHexDigit(s[i])
  {
    if s == [] then 0 else HexValue(s[..|s| - 1]) * 16 + HexDigitValue(s[|s| - 1])
  }

  /** %x is a faithful rendering: reading it back gives the number. */
  lemma {:induction false} LowerHexRoundTrip(n: nat)
    ensures HexValue(LowerHex(n)) == n
  {
    if n >= 16 {
      LowerHexRoundTrip(n / 16);
      var r := LowerHex(n);
      assert r[..|r| - 1] == LowerHex(n / 16);
    }
  }

  /** A value below 16^k prints in at most k digits; a uint32 in at most 8. */
  lemma {:induction false} LowerHexLength(n: nat, k: nat)
    requires k >= 1 && n < Pow16(k)
    ensures |LowerHex(n)| <= k
  {
    if n >= 16 {
      assert Pow16(1) == 16;
      assert k >= 2;
      assert n / 16 < Pow16(k - 1);
      LowerHexLength(n / 16, k - 1);
    }
  }

  function Pow16(k: nat): (r: nat)
    ensures r >= 1
  {
    if k == 0 then 1 else 16 * Pow16(k - 1)
  }

  /** A byte: one element of a Go []byte. */
  type Byte = b: int | 0 <= b < 256

  /** fmt.Sprintf("%x", b) for a byte slice: two lowercase digits per byte. */
  function HexBytes(bs: seq<Byte>): (r: string)
    ensures |r| == 2 * |bs|
    ensures forall i :: 0 <= i < |r| ==> IsLowerHexDigit(r[i])
  {
    if bs == [] then "" else [HexDigit(bs[0] / 16), HexDigit(bs[0] % 16)] + HexBytes(bs[1..])
  }

  /** Reads the two-digits-per-byte text back into bytes. */
  function UnhexBytes(s: string): seq<Byte>
    requires |s| % 2 == 0
    requires forall i :: 0 <= i < |s| ==> IsLowerHexDigit(s[i])
  {
    if s == [] then [] else [HexDigitValue(s[0]) * 16 + HexDigitValue(s[1])] + UnhexBytes(s[2..])
  }

  /** %x on bytes loses nothing, so equal texts mean equal digests. */
  lemma {:induction false} HexBytesRoundTrip(bs: seq<Byte>)
    ensures UnhexBytes(HexBytes(bs)) == bs
  {
    if bs != [] {
      var r := HexBytes(bs);
      assert r[2..] == HexBytes(bs[1..]);
      HexBytesRoundTrip(bs[1..]);
    }
  }
}
