/** The base-40 code of object names: a number for every name of up to six characters, and back. */
module Names {

  const MAX_NAM2NUM: nat := 4096000003
  const NO_NAME: nat := 0xFFFF_FFFF

  function DigitOf(c: char): (d: nat)
    ensures d < 40
  {
    if 'a' <= c <= 'z' then c as int + 10 - 'a' as int
    else if 'A' <= c <= 'Z' then c as int + 10 - 'A' as int
    else if '0' <= c <= '9' then c as int - '0' as int
    else if c == '_' then 36 else if c == '@' then 37 else if c == '.' then 38 else 39
  }

  function CharOf(d: nat): char
    requires d < 40
  {
    if d < 36 then (if d > 9 then (d + 'A' as int - 10) as char else (d + '0' as int) as char)
    else if d == 36 then '_' else if d == 37 then '@' else if d == 38 then '.' else '$'
  }

  const ALPHABET: string := "0123456789ABCDEFGHIJKLMNOPQRSTUVWXYZ_@.$"

  /** A character's digit is its place in the alphabet, and a digit's character the one in that place. */
  lemma DigitIsPlace(c: char, d: nat)
    requires d < 40
    ensures ALPHABET[DigitOf(c)] == Canon(c) && CharOf(d) == ALPHABET[d]
  {
    CharRoundTrip(c);
  }

  /** Upper case, and `$` for whatever has no code of its own. */
  function Canon(c: char): char {
    if 'a' <= c <= 'z' then (c as int - 'a' as int + 'A' as int) as char
    else if 'A' <= c <= 'Z' || '0' <= c <= '9' || c == '_' || c == '@' || c == '.' then c
    else '$'
  }

  function Canonical(s: string): (r: string)
    ensures |r| == |s|
    ensures forall i :: 0 <= i < |s| ==> r[i] == Canon(s[i])
  {
    if s == [] then [] else Canonical(s[..|s| - 1]) + [Canon(s[|s| - 1])]
  }

  /** The first six characters; the others are not looked at. */
  function Six(s: string): string {
    if |s| > 6 then s[..6] else s
  }

  function Digits(s: string): (ds: seq<nat>)
    ensures |ds| == |s|
    ensures forall i :: 0 <= i < |s| ==> ds[i] == DigitOf(s[i])
    ensures Proper(ds)
  {
    if s == [] then [] else Digits(s[..|s| - 1]) + [DigitOf(s[|s| - 1])]
  }

  function Chars(ds: seq<nat>): (s: string)
    requires Proper(ds)
    ensures |s| == |ds|
    ensures forall i :: 0 <= i < |s| ==> s[i] == CharOf(ds[i])
  {
    if ds == [] then [] else Chars(ds[..|ds| - 1]) + [CharOf(ds[|ds| - 1])]
  }

  predicate Proper(ds: seq<nat>) {
    forall i :: 0 <= i < |ds| ==> ds[i] < 40
  }

  function Value(ds: seq<nat>): nat {
    if ds == [] then 0 else Value(ds[..|ds| - 1]) * 40 + ds[|ds| - 1]
  }

  /** At most `k` base-40 digits of `n`, the lowest ones, without leading zeros. */
  function Low(n: nat, k: nat): (ds: seq<nat>)
    ensures Proper(ds) && |ds| <= k
  {
    if n == 0 || k == 0 then [] else Low(n / 40, k - 1) + [n % 40]
  }

  function Pow40(k: nat): nat {
    if k == 0 then 1 else 40 * Pow40(k - 1)
  }

  /** What the two conversions compute. */
  function NumOf(s: string): nat {
    if s == [] then NO_NAME else Value(Digits(Six(s))) + 2
  }

  function NameOf(n: nat): string
    requires n >= 2
  {
    if n >= MAX_NAM2NUM then "|null|" else Chars(Low(n - 2, 6))
  }

  /** Each further character of the first six is one more base-40 digit, and the numbers begin at 2. */
  lemma NextCharacter(s: string, c: char)
    requires |s| < 6
    ensures NumOf(s + [c]) == (if s == [] then 0 else 40 * (NumOf(s) - 2)) + DigitOf(c) + 2
  {
    var t := s + [c];
    assert t[..|s| + 1] == t && t[..|s|] == s;
    NextDigit(t, |s|);
    assert s == [] ==> Value(Digits(s)) == 0;
  }

  /** One more character is one more digit. */
  lemma NextDigit(s: string, i: nat)
    requires i < |s|
    ensures Value(Digits(s[..i + 1])) == Value(Digits(s[..i])) * 40 + DigitOf(s[i])
  {
    assert s[..i + 1][..i] == s[..i];
    var ds := Digits(s[..i + 1]);
    assert ds[..i] == Digits(s[..i]);
  }

  method Code(ch: char) returns (c: nat)
    ensures c == DigitOf(ch)
  {
    c := ch as int;
    if 'a' as int <= c <= 'z' as int {
      c := c + 10 - 'a' as int;
    } else if 'A' as int <= c <= 'Z' as int {
      c := c + 10 - 'A' as int;
    } else if '0' as int <= c <= '9' as int {
      c := c - '0' as int;
    } else {
      c := if c == '_' as int then 36 else if c == '@' as int then 37 else if c == '.' as int then 38 else 39;
    }
  }

  method Nam2Num(name: string) returns (r: nat)
    ensures r == NumOf(name)
  {
    r := 0;
    var i := 0;
    ghost var s := Six(name);
    while i < 6 && i < |name|
      invariant i <= |s| && r == Value(Digits(s[..i]))
    {
      NextDigit(s, i);
      var c := Code(name[i]);
      r := r * 40 + c;
      i := i + 1;
    }
    assert s[..i] == s;
    r := if i > 0 then r + 2 else 0xFFFF_FFFF;
  }

  /** The digits of `all` from place `k` on stand in the buffer behind `i`, and `num` has the others. */
  ghost predicate Filled(all: seq<nat>, num: nat, i: int, tail: string)
    requires -1 <= i <= 5 && Proper(all)
  {
    var rest := Low(num, i + 1);
    |all| == |rest| + 5 - i && all[..|rest|] == rest && tail == Chars(all)[|rest|..]
  }

  lemma FillNext(all: seq<nat>, num: nat, i: int, tail: string)
    requires 0 <= i <= 5 && Proper(all) && Filled(all, num, i, tail) && num > 0
    ensures Filled(all, num / 40, i - 1, [CharOf(num % 40)] + tail)
  {
    var rest := Low(num / 40, i);
    assert Low(num, i + 1) == rest + [num % 40];
    assert all[..|rest| + 1][..|rest|] == rest && all[|rest|] == all[..|rest| + 1][|rest|];
    assert Chars(all)[|rest|..] == [CharOf(all[|rest|])] + Chars(all)[|rest| + 1..];
  }

  /** The end of the loop: everything from place `i` on is the name. */
  lemma FilledAll(all: seq<nat>, num: nat, i: int, tail: string)
    requires -1 <= i <= 5 && Proper(all) && Filled(all, num, i, tail) && (num == 0 || i == -1)
    ensures tail == Chars(all) && |tail| == 5 - i
  {
    assert Chars(all)[0..] == Chars(all);
  }

  lemma FillStarts(n: nat)
    ensures Filled(Low(n, 6), n, 5, [])
  {
    var all := Low(n, 6);
    assert all[..|all|] == all && Chars(all)[|all|..] == [];
  }

  method WriteChar(name: array<char>, i: nat, c: char)
    requires i < 6 < name.Length
    modifies name
    ensures name[i..6] == [c] + old(name[i + 1..6])
  {
    name[i] := c;
  }

  /** The loop that writes the digits from the last place down. */
  method WriteDigits(n: nat, name: array<char>) returns (i: int)
    requires name.Length >= 7
    modifies name
    ensures -1 <= i <= 5 && name[i + 1..6] == Chars(Low(n, 6))
  {
    i := 5;
    var num: nat := n;
    ghost var all, tail := Low(n, 6), name[6..6];
    FillStarts(n);
    while num > 0 && i >= 0
      invariant -1 <= i <= 5 && name[i + 1..6] == tail && Filled(all, num, i, tail)
      decreases i
    {
      FillNext(all, num, i, tail);
      var q := num / 40;
      var c := num - q * 40;
      assert c == num % 40;
      num := q;
      WriteChar(name, i, CharOf(c));
      tail := [CharOf(c)] + tail;
      i := i - 1;
    }
    FilledAll(all, num, i, tail);
  }

  /** Writes the name and a closing zero character; the digits are moved to the front. */
  method Num2Nam(n: nat, name: array<char>) returns (ghost len: nat)
    requires n >= 2 && name.Length >= 7
    modifies name
    ensures len < name.Length && name[..len] == NameOf(n) && name[len] == '\0'
  {
    if n >= MAX_NAM2NUM {
      WriteNull(name);
      return 6;
    }
    var i := WriteDigits(n - 2, name);
    MoveToFront(name, i);
    len := 5 - i;
  }

  method WriteNull(name: array<char>)
    requires name.Length >= 7
    modifies name
    ensures name[..6] == "|null|" && name[6] == '\0'
  {
    name[0], name[1], name[2], name[3], name[4], name[5], name[6] := '|', 'n', 'u', 'l', 'l', '|', '\0';
  }

  method MoveToFront(name: array<char>, i0: int)
    requires name.Length >= 7 && -1 <= i0 <= 5
    modifies name
    ensures name[..5 - i0] == old(name[i0 + 1..6]) && name[5 - i0] == '\0'
  {
    var k, i := 0, i0;
    ghost var s := name[..];
    while i < 5
      invariant i0 <= i <= 5 && k == i - i0
      invariant forall j :: 0 <= j < k ==> name[j] == s[i0 + 1 + j]
      invariant forall j :: k <= j < name.Length ==> name[j] == s[j]
    {
      i := i + 1;
      name[k] := name[i];
      k := k + 1;
    }
    name[k] := '\0';
    assert s[i0 + 1..6] == old(name[i0 + 1..6]);
    assert forall j :: 0 <= j < k ==> name[..k][j] == s[i0 + 1..6][j];
  }

  // ---------------------------------------------------------------------------------------------------
  // Round trips
  // ---------------------------------------------------------------------------------------------------

  lemma {:induction false} ValueOfLow(n: nat, k: nat)
    requires n < Pow40(k)
    ensures Value(Low(n, k)) == n
  {
    if n > 0 && k > 0 {
      ValueOfLow(n / 40, k - 1);
      assert Low(n, k)[..|Low(n, k)| - 1] == Low(n / 40, k - 1);
    }
  }

  lemma {:induction false} ValueBelow(ds: seq<nat>)
    requires Proper(ds)
    ensures Value(ds) < Pow40(|ds|)
    ensures ds != [] && ds[0] != 0 ==> Value(ds) > 0
  {
    if ds != [] { ValueBelow(ds[..|ds| - 1]); }
  }

  lemma {:induction false} LowOfValue(ds: seq<nat>, k: nat)
    requires Proper(ds) && |ds| <= k && (ds != [] ==> ds[0] != 0)
    ensures Low(Value(ds), k) == ds
  {
    if ds != [] {
      var rest := ds[..|ds| - 1];
      LowOfValue(rest, k - 1);
      ValueBelow(ds);
      assert Value(ds) / 40 == Value(rest) && Value(ds) % 40 == ds[|ds| - 1];
      assert ds == rest + [ds[|ds| - 1]];
    }
  }

  lemma {:induction false} LowStarts(n: nat, k: nat)
    requires n < Pow40(k)
    ensures n > 0 ==> Low(n, k) != [] && Low(n, k)[0] != 0
  {
    if n > 0 && k > 0 { LowStarts(n / 40, k - 1); }
  }

  lemma DigitRoundTrip(d: nat)
    requires d < 40
    ensures DigitOf(CharOf(d)) == d
  {
  }

  lemma CharRoundTrip(c: char)
    ensures CharOf(DigitOf(c)) == Canon(c)
    ensures DigitOf(c) == 0 <==> c == '0'
  {
  }

  lemma DigitsOfChars(ds: seq<nat>)
    requires Proper(ds)
    ensures Digits(Chars(ds)) == ds
  {
    forall i | 0 <= i < |ds|
      ensures Digits(Chars(ds))[i] == ds[i]
    {
      DigitRoundTrip(ds[i]);
    }
  }

  lemma SixPlaces()
    ensures Pow40(6) == 4096000000
  {
    assert Pow40(2) == 1600;
    assert Pow40(4) == 1600 * Pow40(2);
    assert Pow40(6) == 1600 * Pow40(4);
  }

  /** A number comes back from its name exactly when it lies in this range: 2 has no name, 4096000002 needs a seventh
      digit, and all larger ones share one name. */
  lemma NumberRoundTrip(n: nat)
    requires n >= 2
    ensures NumOf(NameOf(n)) == n <==> 3 <= n <= 4096000001
  {
    if 3 <= n <= 4096000001 { NumberComesBack(n); } else { NumberLost(n); }
  }

  lemma NumberLost(n: nat)
    requires n == 2 || n > 4096000001
    ensures NumOf(NameOf(n)) != n
  {
    SixPlaces();
    if n == 2 { NumberOfNoName(n); } else if n < MAX_NAM2NUM { NumberOfZeros(n); } else { NumberOfNull(n); }
  }

  /** The number 2 has the empty name. */
  lemma NumberOfNoName(n: nat)
    requires n == 2
    ensures NameOf(n) == "" && NumOf(NameOf(n)) == NO_NAME
  {
  }

  /** One more than the largest number that fits six places has the name of six zeros, whose number is 2. */
  lemma NumberOfZeros(n: nat)
    requires n == Pow40(6) + 2 < MAX_NAM2NUM
    ensures |NameOf(n)| == 6 && (forall i :: 0 <= i < 6 ==> NameOf(n)[i] == '0') && NumOf(NameOf(n)) == 2
  {
    LowZeros(n - 2, 6);
    DigitsOfChars(Low(n - 2, 6));
  }

  lemma NumberOfNull(n: nat)
    requires n >= MAX_NAM2NUM
    ensures NumOf(NameOf(n)) < Pow40(6) + 2
  {
    ValueBelow(Digits("|null|"));
  }

  lemma NumberComesBack(n: nat)
    requires 3 <= n <= 4096000001
    ensures NumOf(NameOf(n)) == n
  {
    SixPlaces();
    ValueOfLow(n - 2, 6);
    LowStarts(n - 2, 6);
    DigitsOfChars(Low(n - 2, 6));
  }

  lemma {:induction false} LowZeros(n: nat, k: nat)
    requires n == Pow40(k)
    ensures n > 0 && |Low(n, k)| == k && Value(Low(n, k)) == 0
    ensures forall i :: 0 <= i < k ==> Low(n, k)[i] == 0
  {
    if k > 0 {
      var m := Pow40(k - 1);
      LowZeros(m, k - 1);
      assert n / 40 == m && n % 40 == 0;
      var ds := Low(m, k - 1);
      assert Low(n, k) == ds + [0];
      assert (ds + [0])[..|ds|] == ds;
    }
  }

  /** The two numbers at the edges do not come back. */
  lemma EdgeNumbersLost()
    ensures NumOf(NameOf(2)) == NO_NAME && NumOf(NameOf(4096000002)) == 2
  {
    SixPlaces();
    NumberOfNoName(2);
    NumberOfZeros(4096000002);
  }

  lemma {:induction false} SmallValue(ds: seq<nat>, k: nat)
    requires Proper(ds) && |ds| <= k
    ensures Value(ds) < Pow40(k)
  {
    ValueBelow(ds);
    PowGrows(|ds|, k);
  }

  lemma {:induction false} PowGrows(a: nat, b: nat)
    requires a <= b
    ensures Pow40(a) <= Pow40(b)
  {
    if a < b { PowGrows(a, b - 1); }
  }

  lemma CharsOfDigits(s: string)
    ensures Chars(Digits(s)) == Canonical(s)
  {
    forall i | 0 <= i < |s|
      ensures Chars(Digits(s))[i] == Canonical(s)[i]
    {
      CharRoundTrip(s[i]);
    }
  }

  lemma NumberFits(s: string)
    requires s != []
    ensures NumOf(s) == Value(Digits(Six(s))) + 2 < MAX_NAM2NUM && Value(Digits(Six(s))) < Pow40(6)
  {
    SixPlaces();
    SmallValue(Digits(Six(s)), 6);
  }

  lemma LeadingZeroLost(s: string)
    requires s != [] && s[0] == '0'
    ensures NameOf(NumOf(s)) != Canonical(Six(s))
  {
    NumberFits(s);
    var ds := Low(Value(Digits(Six(s))), 6);
    LowStarts(Value(Digits(Six(s))), 6);
    if ds != [] {
      DigitRoundTrip(ds[0]);
      assert Canonical(Six(s))[0] == '0';
      assert Chars(ds)[0] != '0';
    }
  }

  lemma NameComesBack(s: string)
    requires s != [] && s[0] != '0'
    ensures NameOf(NumOf(s)) == Canonical(Six(s))
  {
    var ds := Digits(Six(s));
    NumberFits(s);
    CharRoundTrip(s[0]);
    assert ds[0] != 0;
    LowOfValue(ds, 6);
    CharsOfDigits(Six(s));
  }

  /** A name comes back from its number in canonical form exactly when it does not begin with the digit zero. */
  lemma NameRoundTrip(s: string)
    requires s != []
    ensures NumOf(s) >= 2 && (NameOf(NumOf(s)) == Canonical(Six(s)) <==> s[0] != '0')
  {
    NumberFits(s);
    if s[0] != '0' {
      NameComesBack(s);
    } else {
      LeadingZeroLost(s);
    }
  }

  /** No name has a number that the registry uses as a mark: 0 for an empty slot, 1 for a cleared one. */
  lemma NeverAMark(s: string)
    ensures NumOf(s) > 1
  {
  }

  /** Names that do not begin with zero share a number only if they have the same canonical form. */
  lemma SameNumberSameName(s: string, t: string)
    requires s != [] && t != [] && s[0] != '0' && t[0] != '0' && NumOf(s) == NumOf(t)
    ensures Canonical(Six(s)) == Canonical(Six(t))
  {
    NameRoundTrip(s);
    NameRoundTrip(t);
  }
}
