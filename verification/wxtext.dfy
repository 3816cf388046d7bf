/** The two pieces of wxWidgets string handling the updater relies on:
    wxStringTokenizer in its default mode, and wxString::ToLong.
    Their source is not part of this model; the functions below state the
    behaviour the model assumes of the library. */
module WxText {

  /** `t` holds no character of `delims`. */
  predicate NoDelim(t: string, delims: set<char>)
  {
    forall k :: 0 <= k < |t| ==> t[k] !in delims
  }

  /** Cuts `s` at every delimiter character: one field more than there are delimiters. */
  function Split(s: string, delims: set<char>): (fs: seq<string>)
    ensures |fs| >= 1
  {
    if s == [] then [[]]
    else
      var rest := Split(s[1..], delims);
      if s[0] in delims then [[]] + rest
      else [[s[0]] + rest[0]] + rest[1..]
  }

  /** Joins fields with one delimiter between each pair. */
  function Join(fs: seq<string>, d: char): string
  {
    if |fs| == 0 then []
    else if |fs| == 1 then fs[0]
    else fs[0] + [d] + Join(fs[1..], d)
  }

  function NonEmpty(fs: seq<string>): seq<string>
  {
    if fs == [] then []
    else if fs[0] == [] then NonEmpty(fs[1..])
    else [fs[0]] + NonEmpty(fs[1..])
  }

  function DropTrailingEmpty(fs: seq<string>): seq<string>
  {
    if fs == [] then []
    else if fs[|fs| - 1] == [] then DropTrailingEmpty(fs[..|fs| - 1])
    else fs
  }

  /** wxTOKEN_STRTOK: the mode wxStringTokenizer picks when every delimiter is
      white space. Consecutive delimiters count as one; no token is empty. */
  function StrtokTokens(s: string, delims: set<char>): seq<string>
  {
    NonEmpty(Split(s, delims))
  }

  /** wxTOKEN_RET_EMPTY: the mode wxStringTokenizer picks when some delimiter is
      not white space. Empty tokens between delimiters are returned, trailing
      empty tokens are not, except that a non-empty string made only of
      delimiters still yields the one empty token in front of them. */
  function RetEmptyTokens(s: string, delims: set<char>): seq<string>
  {
    if s == [] then []
    else
      var fs := DropTrailingEmpty(Split(s, delims));
      if fs == [] then [[]] else fs
  }

  /** No field of a split holds a delimiter. */
  lemma {:induction false} SplitNoDelim(s: string, delims: set<char>)
    ensures forall i :: 0 <= i < |Split(s, delims)| ==> NoDelim(Split(s, delims)[i], delims)
  {
    if s != [] {
      SplitNoDelim(s[1..], delims);
    }
  }

  lemma {:induction false} NonEmptyKeeps(fs: seq<string>, delims: set<char>)
    requires forall i :: 0 <= i < |fs| ==> NoDelim(fs[i], delims)
    ensures forall i :: 0 <= i < |NonEmpty(fs)| ==> NonEmpty(fs)[i] != [] && NoDelim(NonEmpty(fs)[i], delims)
  {
    if fs != [] {
      NonEmptyKeeps(fs[1..], delims);
    }
  }

  lemma {:induction false} DropTrailingEmptyPrefix(fs: seq<string>)
    ensures |DropTrailingEmpty(fs)| <= |fs| && DropTrailingEmpty(fs) == fs[..|DropTrailingEmpty(fs)|]
    ensures DropTrailingEmpty(fs) != [] ==> DropTrailingEmpty(fs)[|DropTrailingEmpty(fs)| - 1] != []
  {
    if fs != [] && fs[|fs| - 1] == [] {
      DropTrailingEmptyPrefix(fs[..|fs| - 1]);
    }
  }

  /** Strtok-mode tokens are non-empty and delimiter-free. */
  lemma StrtokTokensShape(s: string, delims: set<char>)
    ensures forall i :: 0 <= i < |StrtokTokens(s, delims)| ==>
      StrtokTokens(s, delims)[i] != [] && NoDelim(StrtokTokens(s, delims)[i], delims)
  {
    SplitNoDelim(s, delims);
    NonEmptyKeeps(Split(s, delims), delims);
  }

  /** Ret-empty-mode tokens are delimiter-free, there is at least one exactly
      when the string is not empty, and the last of several is never empty. */
  lemma RetEmptyTokensShape(s: string, delims: set<char>)
    ensures var ts := RetEmptyTokens(s, delims);
      && (s == [] <==> ts == [])
      && (|ts| > 1 ==> ts[|ts| - 1] != [])
      && forall i :: 0 <= i < |ts| ==> NoDelim(ts[i], delims)
  {
    var fs := Split(s, delims);
    SplitNoDelim(s, delims);
    DropTrailingEmptyPrefix(fs);
    var d := DropTrailingEmpty(fs);
    assert forall i :: 0 <= i < |d| ==> d[i] == fs[i];
  }

  /** Splitting a delimiter-free prefix followed by `rest` glues the prefix onto the first field of `rest`. */
  lemma {:induction false} SplitPrefix(a: string, rest: string, delims: set<char>)
    requires NoDelim(a, delims)
    ensures Split(a + rest, delims) == [a + Split(rest, delims)[0]] + Split(rest, delims)[1..]
  {
    if a != [] {
      assert (a + rest)[1..] == a[1..] + rest;
      SplitPrefix(a[1..], rest, delims);
      assert [a[0]] + (a[1..] + Split(rest, delims)[0]) == a + Split(rest, delims)[0];
    } else {
      assert a + rest == rest;
      assert a + Split(rest, delims)[0] == Split(rest, delims)[0];
      assert Split(rest, delims) == [Split(rest, delims)[0]] + Split(rest, delims)[1..];
    }
  }

  /** Splitting undoes joining when the joining character is a delimiter and no field holds one. */
  lemma {:induction false} SplitJoin(fs: seq<string>, d: char, delims: set<char>)
    requires |fs| >= 1 && d in delims
    requires forall i :: 0 <= i < |fs| ==> NoDelim(fs[i], delims)
    ensures Split(Join(fs, d), delims) == fs
  {
    if |fs| == 1 {
      SplitPrefix(fs[0], [], delims);
      assert fs[0] + [] == fs[0];
    } else {
      var tail := Join(fs[1..], d);
      SplitJoin(fs[1..], d, delims);
      assert fs[0] + [d] + tail == fs[0] + ([d] + tail);
      SplitPrefix(fs[0], [d] + tail, delims);
      assert ([d] + tail)[1..] == tail;
      assert Split([d] + tail, delims) == [[]] + fs[1..];
      assert fs[0] + [] == fs[0];
      assert fs == [fs[0]] + fs[1..];
    }
  }

  lemma {:induction false} NonEmptyKeepsNonEmpty(fs: seq<string>)
    requires forall i :: 0 <= i < |fs| ==> fs[i] != []
    ensures NonEmpty(fs) == fs
  {
    if fs != [] {
      NonEmptyKeepsNonEmpty(fs[1..]);
      assert fs == [fs[0]] + fs[1..];
    }
  }

  /** Strtok-mode tokens of joined non-empty, delimiter-free pieces are those pieces. */
  lemma StrtokJoin(ls: seq<string>, d: char, delims: set<char>)
    requires |ls| >= 1 && d in delims
    requires forall i :: 0 <= i < |ls| ==> ls[i] != [] && NoDelim(ls[i], delims)
    ensures StrtokTokens(Join(ls, d), delims) == ls
  {
    SplitJoin(ls, d, delims);
    NonEmptyKeepsNonEmpty(ls);
  }

  /** Ret-empty-mode tokens of joined delimiter-free fields whose last field is
      non-empty are exactly those fields. */
  lemma RetEmptyJoin(fs: seq<string>, d: char, delims: set<char>)
    requires |fs| >= 1 && d in delims && fs[|fs| - 1] != []
    requires forall i :: 0 <= i < |fs| ==> NoDelim(fs[i], delims)
    ensures RetEmptyTokens(Join(fs, d), delims) == fs
  {
    SplitJoin(fs, d, delims);
    if Join(fs, d) == [] {
      assert false;
    }
  }

  /** A delimiter-free join stays delimiter-free when the joining character is not a delimiter. */
  lemma {:induction false} JoinNoDelim(fs: seq<string>, d: char, delims: set<char>)
    requires d !in delims
    requires forall i :: 0 <= i < |fs| ==> NoDelim(fs[i], delims)
    ensures NoDelim(Join(fs, d), delims)
  {
    if |fs| > 1 {
      JoinNoDelim(fs[1..], d, delims);
    }
  }

  // ---------------------------------------------------------------- ToLong

  /** A `long` is 32 bits wide on the Windows build this file belongs to. */
  const LongMin: int := -0x8000_0000
  const LongMax: int := 0x7fff_ffff

  /** The characters C's isspace accepts in the "C" locale. */
  predicate IsSpace(c: char)
  {
    c == ' ' || c == '\t' || c == '\n' || c == '\U{000B}' || c == '\U{000C}' || c == '\r'
  }

  predicate IsDigit(c: char)
  {
    '0' as int <= c as int <= '9' as int
  }

  function SkipSpace(s: string): (t: string)
    ensures |t| <= |s|
  {
    if s != [] && IsSpace(s[0]) then SkipSpace(s[1..]) else s
  }

  /** What follows an optional leading sign. */
  function Unsigned(t: string): (u: string)
    ensures |u| <= |t|
  {
    if t != [] && (t[0] == '-' || t[0] == '+') then t[1..] else t
  }

  /** Number of leading decimal digits. */
  function DigitRun(s: string): (n: nat)
    ensures n <= |s|
    ensures forall k :: 0 <= k < n ==> IsDigit(s[k])
  {
    if s != [] && IsDigit(s[0]) then 1 + DigitRun(s[1..]) else 0
  }

  /** The value of a string of decimal digits, most significant first. */
  function DigitsValue(ds: string): nat
    requires forall k :: 0 <= k < |ds| ==> IsDigit(ds[k])
  {
    if ds == [] then 0
    else
      assert IsDigit(ds[|ds| - 1]);
      10 * DigitsValue(ds[..|ds| - 1]) + (ds[|ds| - 1] as int - '0' as int)
  }

  /** The value the caller keeps after wxString::ToLong in base 10, taken to
      be what strtol produces: leading white space and one sign are skipped,
      the longest run of digits is read, no digits at all gives 0, and an
      out-of-range value saturates. This is an assumption about the library:
      some wxWidgets versions leave the target unwritten in the last two
      cases instead. */
  function ToLong(s: string): (v: int)
    ensures LongMin <= v <= LongMax
  {
    var t := SkipSpace(s);
    var u := Unsigned(t);
    var m: int := DigitsValue(u[..DigitRun(u)]);
    if t != [] && t[0] == '-' then (if -m < LongMin then LongMin else -m)
    else (if m > LongMax then LongMax else m)
  }

  function DigitChar(d: nat): (c: char)
    requires d < 10
    ensures IsDigit(c) && c as int - '0' as int == d
  {
    ('0' as int + d) as char
  }

  /** Canonical decimal digits of a natural number. */
  function Digits(n: nat): (ds: string)
    ensures |ds| >= 1 && forall k :: 0 <= k < |ds| ==> IsDigit(ds[k])
  {
    if n < 10 then [DigitChar(n)] else Digits(n / 10) + [DigitChar(n % 10)]
  }

  /** Canonical decimal text of an integer, with a leading '-' when negative. */
  function Decimal(n: int): string
  {
    if n < 0 then "-" + Digits(-n) else Digits(n)
  }

  lemma {:induction false} DigitsValueOfDigits(n: nat)
    ensures DigitsValue(Digits(n)) == n
  {
    if n >= 10 {
      DigitsValueOfDigits(n / 10);
      var ds := Digits(n);
      assert ds[..|ds| - 1] == Digits(n / 10);
    }
  }

  /** A run of digits is read in full. */
  lemma {:induction false} DigitsRead(ds: string)
    requires forall k :: 0 <= k < |ds| ==> IsDigit(ds[k])
    ensures DigitRun(ds) == |ds| && ds[..DigitRun(ds)] == ds
  {
    if ds != [] {
      DigitsRead(ds[1..]);
    }
  }

  /** Every integer in the range of `long` survives being written in decimal and read back by ToLong. */
  lemma ToLongDecimal(n: int)
    requires LongMin <= n <= LongMax
    ensures ToLong(Decimal(n)) == n
  {
    var m: nat := if n < 0 then -n else n;
    var ds := Digits(m);
    DigitsValueOfDigits(m);
    DigitsRead(ds);
    if n < 0 {
      var t := Decimal(n);
      assert t == "-" + ds;
      assert SkipSpace(t) == t;
      assert Unsigned(t) == ds;
    } else {
      assert Decimal(n) == ds;
      assert !IsSpace(ds[0]);
      assert SkipSpace(ds) == ds;
      assert Unsigned(ds) == ds;
    }
  }

  /** Decimal text holds only digits and '-'. */
  lemma DecimalNoDelim(n: int, delims: set<char>)
    requires forall c :: c in delims ==> !IsDigit(c) && c != '-'
    ensures NoDelim(Decimal(n), delims)
  {
  }
}
