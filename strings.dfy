/** The JavaScript string operations the application relies on:
    `indexOf`/`includes`, `split` with a string separator, ASCII `toLowerCase`,
    `String(n)` on integers and `padStart`. */
module Strings {
  import opened Wrappers

  /** `t` occurs in `s` starting at position `i`. */
  predicate OccursAt(s: string, t: string, i: nat) {
    i + |t| <= |s| && s[i..i + |t|] == t
  }

  lemma OccursAtShift(s: string, t: string, j: nat)
    requires s != []
    ensures OccursAt(s, t, j + 1) <==> OccursAt(s[1..], t, j)
  {
    if j + 1 + |t| <= |s| {
      assert s[j + 1..j + 1 + |t|] == s[1..][j..j + |t|];
    }
  }

  /** `s.indexOf(t)`: the first position at which `t` occurs in `s`. */
  function IndexOf(s: string, t: string): (r: Option<nat>)
    ensures r.Some? ==> OccursAt(s, t, r.value)
    ensures r.Some? ==> forall j: nat :: j < r.value ==> !OccursAt(s, t, j)
    ensures r.None? ==> forall j: nat :: !OccursAt(s, t, j)
    decreases |s|
  {
    if t <= s then
      assert s[0..|t|] == t;
      Some(0)
    else if s == [] then
      None
    else
      var rest := IndexOf(s[1..], t);
      assert !OccursAt(s, t, 0) by {
        if |t| <= |s| { assert s[0..|t|] != t; }
      }
      assert forall j: nat :: OccursAt(s, t, j + 1) <==> OccursAt(s[1..], t, j) by {
        forall j: nat ensures OccursAt(s, t, j + 1) <==> OccursAt(s[1..], t, j) {
          OccursAtShift(s, t, j);
        }
      }
      match rest
      case None =>
        assert forall j: nat :: !OccursAt(s, t, j) by {
          forall j: nat ensures !OccursAt(s, t, j) {
            if j > 0 { assert OccursAt(s, t, (j - 1) + 1) <==> OccursAt(s[1..], t, j - 1); }
          }
        }
        None
      case Some(k) =>
        assert forall j: nat :: j < k + 1 ==> !OccursAt(s, t, j) by {
          forall j: nat | j < k + 1 ensures !OccursAt(s, t, j) {
            if j > 0 { assert OccursAt(s, t, (j - 1) + 1) <==> OccursAt(s[1..], t, j - 1); }
          }
        }
        Some(k + 1)
  }

  /** `s.includes(t)`. */
  predicate Includes(s: string, t: string) {
    IndexOf(s, t).Some?
  }

  /** `includes` holds exactly when `t` occurs somewhere in `s`. */
  lemma IncludesIff(s: string, t: string)
    ensures Includes(s, t) <==> exists i: nat :: OccursAt(s, t, i)
  {
  }

  /** `s.split(sep)` for a non-empty separator: the pieces between the
      non-overlapping occurrences of `sep`, scanning from the left. */
  function Split(s: string, sep: string): (parts: seq<string>)
    requires sep != []
    ensures |parts| >= 1
    decreases |s|
  {
    match IndexOf(s, sep)
    case None => [s]
    case Some(i) => [s[..i]] + Split(s[i + |sep|..], sep)
  }

  /** `parts.join(sep)`. */
  function Join(parts: seq<string>, sep: string): string
    requires |parts| >= 1
  {
    if |parts| == 1 then parts[0] else parts[0] + sep + Join(parts[1..], sep)
  }

  /** Joining a piece in front of others puts one separator between them. */
  lemma JoinCons(a: string, rest: seq<string>, sep: string)
    requires |rest| >= 1
    ensures Join([a] + rest, sep) == a + sep + Join(rest, sep)
  {
    assert ([a] + rest)[1..] == rest;
  }

  lemma Reassemble(s: string, i: nat, j: nat)
    requires i <= j <= |s|
    ensures s == s[..i] + s[i..j] + s[j..]
  {
  }

  /** One step of a split: the piece before the first separator, then the
      split of the rest; the separator sits between them in `s`. */
  lemma SplitStep(s: string, sep: string, i: nat)
    requires sep != [] && IndexOf(s, sep) == Some(i)
    ensures i + |sep| <= |s|
    ensures Split(s, sep) == [s[..i]] + Split(s[i + |sep|..], sep)
    ensures s == s[..i] + sep + s[i + |sep|..]
  {
    assert s[i..i + |sep|] == sep;
    Reassemble(s, i, i + |sep|);
  }

  /** Splitting loses nothing: joining the pieces with the separator gives `s` back. */
  lemma {:induction false} JoinSplit(s: string, sep: string)
    requires sep != []
    ensures Join(Split(s, sep), sep) == s
    decreases |s|
  {
    match IndexOf(s, sep)
    case None =>
    case Some(i) =>
      SplitStep(s, sep, i);
      var tail := s[i + |sep|..];
      calc {
        Join(Split(s, sep), sep);
        Join([s[..i]] + Split(tail, sep), sep);
        { JoinCons(s[..i], Split(tail, sep), sep); }
        s[..i] + sep + Join(Split(tail, sep), sep);
        { JoinSplit(tail, sep); }
        s[..i] + sep + tail;
        s;
      }
  }

  /** The first piece is everything before the first separator (or all of `s`). */
  lemma SplitHead(s: string, sep: string)
    requires sep != []
    ensures IndexOf(s, sep).None? ==> Split(s, sep) == [s]
    ensures IndexOf(s, sep).Some? ==> Split(s, sep)[0] == s[..IndexOf(s, sep).value]
    ensures |Split(s, sep)| >= 2 <==> IndexOf(s, sep).Some?
  {
  }

  /** The last piece of a split contains no separator (`split(sep).pop()`). */
  lemma {:induction false} SplitLast(s: string, sep: string)
    requires sep != []
    ensures IndexOf(Split(s, sep)[|Split(s, sep)| - 1], sep) == None
    decreases |s|
  {
    if IndexOf(s, sep).Some? {
      var i := IndexOf(s, sep).value;
      var tail := s[i + |sep|..];
      assert Split(s, sep)[|Split(s, sep)| - 1] == Split(tail, sep)[|Split(tail, sep)| - 1] by {
        SplitStep(s, sep, i);
        LastOfCons(s[..i], Split(tail, sep));
      }
      SplitLast(tail, sep);
    }
  }

  /** `s.endsWith(t)`. */
  predicate EndsWith(s: string, t: string) {
    |t| <= |s| && s[|s| - |t|..] == t
  }

  lemma EndsWithAppend(a: string, b: string, t: string)
    requires EndsWith(b, t)
    ensures EndsWith(a + b, t)
  {
    assert (a + b)[|a + b| - |t|..] == b[|b| - |t|..];
  }

  /** When `s` has a separator, its last piece follows the final one. */
  lemma {:induction false} SplitLastSuffix(s: string, sep: string)
    requires sep != [] && IndexOf(s, sep).Some?
    ensures EndsWith(s, sep + Split(s, sep)[|Split(s, sep)| - 1])
    decreases |s|
  {
    var i := IndexOf(s, sep).value;
    var tail := s[i + |sep|..];
    var last := Split(tail, sep)[|Split(tail, sep)| - 1];
    assert Split(s, sep)[|Split(s, sep)| - 1] == last && s == (s[..i] + sep) + tail by {
      SplitStep(s, sep, i);
      LastOfCons(s[..i], Split(tail, sep));
    }
    if IndexOf(tail, sep).None? {
      assert last == tail by {
        SplitHead(tail, sep);
      }
      assert s == s[..i] + (sep + tail);
      EndsWithAppend(s[..i], sep + tail, sep + tail);
    } else {
      SplitLastSuffix(tail, sep);
      EndsWithAppend(s[..i] + sep, tail, sep + last);
    }
  }

  lemma LastOfCons<T>(a: T, rest: seq<T>)
    requires |rest| >= 1
    ensures ([a] + rest)[|[a] + rest| - 1] == rest[|rest| - 1]
  {
  }

  /** A string in which the separator's first character never appears
      contains no occurrence of the separator. */
  lemma IndexOfAbsent(s: string, sep: string)
    requires sep != [] && forall i :: 0 <= i < |s| ==> s[i] != sep[0]
    ensures IndexOf(s, sep) == None
  {
    forall j: nat ensures !OccursAt(s, sep, j) {
      if j + |sep| <= |s| { assert s[j..j + |sep|][0] == s[j]; }
    }
  }

  /** The first separator in `a + sep + b` is the one placed after `a`, when
      `a` does not contain the separator's first character. */
  lemma IndexOfAfter(a: string, sep: string, b: string)
    requires sep != [] && forall i :: 0 <= i < |a| ==> a[i] != sep[0]
    ensures IndexOf(a + sep + b, sep) == Some(|a|)
  {
    var s := a + sep + b;
    assert s[|a|..|a| + |sep|] == sep;
    forall j: nat | j < |a| ensures !OccursAt(s, sep, j) {
      assert s[j] == a[j];
      if j + |sep| <= |s| { assert s[j..j + |sep|][0] == s[j]; }
    }
    assert OccursAt(s, sep, |a|);
    var r := IndexOf(s, sep);
    assert r.Some?;
    assert r.value <= |a|;
  }

  /** Splitting `a + sep + b` gives back `a` and `b` when neither contains the
      separator's first character. */
  lemma SplitAround(a: string, sep: string, b: string)
    requires sep != []
    requires forall i :: 0 <= i < |a| ==> a[i] != sep[0]
    requires forall i :: 0 <= i < |b| ==> b[i] != sep[0]
    ensures Split(a + sep + b, sep) == [a, b]
  {
    var s := a + sep + b;
    IndexOfAfter(a, sep, b);
    IndexOfAbsent(b, sep);
    assert s[..|a|] == a;
    assert s[|a| + |sep|..] == b;
  }

  predicate IsUpper(c: char) {
    'A' <= c <= 'Z'
  }

  function LowerChar(c: char): char {
    if IsUpper(c) then (c as int + 32) as char else c
  }

  /** `s.toLowerCase()` restricted to ASCII letters. */
  function ToLower(s: string): (r: string)
    ensures |r| == |s|
    ensures forall i :: 0 <= i < |r| ==> !IsUpper(r[i])
    ensures forall i :: 0 <= i < |r| ==> r[i] == s[i] || (IsUpper(s[i]) && r[i] as int == s[i] as int + 32)
  {
    seq(|s|, i requires 0 <= i < |s| => LowerChar(s[i]))
  }

  lemma ToLowerIdempotent(s: string)
    ensures ToLower(ToLower(s)) == ToLower(s)
  {
  }

  /** The characters `String.prototype.trim` removes: ECMAScript's WhiteSpace
      (tab, vertical tab, form feed, no-break space, the byte order mark and
      the space separators of category Zs) and LineTerminator. */
  predicate IsJsWhitespace(c: char) {
    c in {'\t', '\n', '\U{000B}', '\U{000C}', '\r', ' ', '\U{00A0}', '\U{1680}', '\U{2028}', '\U{2029}',
          '\U{202F}', '\U{205F}', '\U{3000}', '\U{FEFF}'}
    || '\U{2000}' <= c <= '\U{200A}'
  }

  /** `s.trim()` is empty. */
  predicate IsBlank(s: string) {
    forall i :: 0 <= i < |s| ==> IsJsWhitespace(s[i])
  }

  predicate IsDigit(c: char) {
    '0' <= c <= '9'
  }

  function DigitChar(d: nat): (c: char)
    requires d < 10
    ensures IsDigit(c) && c as int - '0' as int == d
  {
    ('0' as int + d) as char
  }

  /** `String(n)` for a non-negative integer: its decimal digits, no leading zero. */
  function NatToString(n: nat): (s: string)
    ensures |s| >= 1
    ensures forall i :: 0 <= i < |s| ==> IsDigit(s[i])
    ensures |s| > 1 ==> s[0] != '0'
    decreases n
  {
    if n < 10 then [DigitChar(n)] else NatToString(n / 10) + [DigitChar(n % 10)]
  }

  /** Reads a non-empty string of decimal digits (leading zeros allowed). */
  function ParseNat(s: string): Option<nat>
    decreases |s|
  {
    if s == [] || !IsDigit(s[|s| - 1]) then None
    else if |s| == 1 then Some(s[0] as int - '0' as int)
    else match ParseNat(s[..|s| - 1])
      case None => None
      case Some(v) => Some(10 * v + (s[|s| - 1] as int - '0' as int))
  }

  /** Printing then reading a number gives the number back. */
  lemma {:induction false} ParseNatToString(n: nat)
    ensures ParseNat(NatToString(n)) == Some(n)
    decreases n
  {
    if n >= 10 {
      var s := NatToString(n);
      assert s[..|s| - 1] == NatToString(n / 10);
      ParseNatToString(n / 10);
    }
  }

  lemma NatToStringInjective(m: nat, n: nat)
    requires NatToString(m) == NatToString(n)
    ensures m == n
  {
    ParseNatToString(m);
    ParseNatToString(n);
  }

  /** `String(i)` for any integer. */
  function IntToString(i: int): string {
    if i < 0 then "-" + NatToString(-i) else NatToString(i)
  }

  lemma IntToStringInjective(i: int, j: int)
    requires IntToString(i) == IntToString(j)
    ensures i == j
  {
    if i < 0 && j < 0 {
      assert IntToString(i)[1..] == NatToString(-i);
      assert IntToString(j)[1..] == NatToString(-j);
      NatToStringInjective(-i, -j);
    } else if i >= 0 && j >= 0 {
      NatToStringInjective(i, j);
    }
  }

  /** `s.padStart(width, fill)` with a one-character fill. */
  function PadStart(s: string, width: nat, fill: char): (r: string)
    ensures |r| == if |s| >= width then |s| else width
    ensures r[|r| - |s|..] == s
    ensures forall i :: 0 <= i < |r| - |s| ==> r[i] == fill
  {
    if |s| >= width then s else seq(width - |s|, _ => fill) + s
  }

  /** A one-digit number padded with a leading zero. */
  lemma ParsePadOneDigit(n: nat)
    requires n < 10
    ensures PadStart(NatToString(n), 2, '0') == ['0', DigitChar(n)]
    ensures ParseNat(['0', DigitChar(n)]) == Some(n)
  {
    var d := DigitChar(n);
    assert NatToString(n) == [d];
    var padded := PadStart([d], 2, '0');
    assert padded[1..] == [d] && padded[0] == '0';
    assert padded == ['0', d];
    var p := ['0', d];
    assert p[..1] == ['0'];
    assert ParseNat(['0']) == Some(0);
  }

  /** A two-digit number is printed with exactly two digits. */
  lemma TwoDigits(n: nat)
    requires 10 <= n < 100
    ensures |NatToString(n)| == 2
  {
    assert n / 10 < 10;
    assert NatToString(n / 10) == [DigitChar(n / 10)];
  }

  /** Two-digit zero-padded numbers read back to themselves. */
  lemma ParsePad2(n: nat)
    requires n < 100
    ensures |PadStart(NatToString(n), 2, '0')| == 2
    ensures ParseNat(PadStart(NatToString(n), 2, '0')) == Some(n)
    ensures IsDigit(PadStart(NatToString(n), 2, '0')[0]) && IsDigit(PadStart(NatToString(n), 2, '0')[1])
  {
    if n < 10 {
      ParsePadOneDigit(n);
    } else {
      TwoDigits(n);
      ParseNatToString(n);
    }
  }
}
