/** `min_pow` and `split`. */
module NetUtil {
  import opened Bits
  import opened Decimal
  import opened Sequences

  // ----- conversions -----

  /** The conversion of an `unsigned` to `int`. */
  function AsInt32(u: nat): int {
    if u < 0x8000_0000 then u else u - 0x1_0000_0000
  }

  /** The conversion of an `int` to `uint32_t`. */
  function AsUint32(n: int): (u: nat)
    ensures u < 0x1_0000_0000
  {
    n % 0x1_0000_0000
  }

  /** The two conversions undo each other. */
  lemma ConversionsUndo(n: int, u: nat)
    ensures INT_MIN <= n <= INT_MAX ==> AsInt32(AsUint32(n)) == n
    ensures u < 0x1_0000_0000 ==> AsUint32(AsInt32(u)) == u && INT_MIN <= AsInt32(u) <= INT_MAX
    ensures 0 <= n <= INT_MAX ==> AsUint32(n) == n
  {
  }

  // ----- min_pow -----

  /** What the loop of `min_pow` makes of `r` while it halves `num` down to 0. */
  function Doubled(r: nat, num: nat): nat
    decreases num
  {
    if num == 0 then r else Doubled(2 * r, num / 2)
  }

  lemma {:induction false} DoubledTwice(r: nat, n: nat)
    ensures Doubled(2 * r, n) == 2 * Doubled(r, n)
    decreases n
  {
    if n > 0 {
      DoubledTwice(2 * r, n / 2);
    }
  }

  /** The loop ends with the least power of two above the argument. */
  lemma {:induction false} DoubledIsNextPower(n: nat)
    requires n > 0
    ensures IsPowerOfTwo(Doubled(1, n)) && n < Doubled(1, n) <= 2 * n
    decreases n
  {
    DoubledTwice(1, n / 2);
    if n > 1 {
      DoubledIsNextPower(n / 2);
    }
  }

  /** The halving loop of `min_pow`, on a number that is no power of two. */
  method PowerAbove(num: nat) returns (u: nat)
    requires num > 0
    ensures IsPowerOfTwo(u) && num < u <= 2 * num
  {
    var n: nat := num;
    u := 1;
    while n != 0
      invariant Doubled(u, n) == Doubled(1, num)
      decreases n
    {
      n, u := n / 2, u * 2;
    }
    DoubledIsNextPower(num);
  }

  /** Where the doubled result leaves the range of `int`. */
  lemma PowerInRange(num: nat, u: nat)
    requires IsPowerOfTwo(u) && num < u <= 2 * num && 1 < num <= INT_MAX
    ensures if num < 0x4000_0000 then u <= 0x4000_0000 else u == 0x8000_0000
  {
    hide IsPowerOfTwo;
    BigPowers();
    if u > 0x4000_0000 {
      PowersAreApart(u, 0x4000_0000);
    }
  }

  /** `min_pow`: the least power of two that is not below the argument. Arguments up to 1 come
      back unchanged; above 2^30 the result no longer fits an `int`. */
  method MinPow(num: int) returns (r: int)
    requires INT_MIN <= num <= INT_MAX
    ensures num <= 1 ==> r == num
    ensures 1 < num <= 0x4000_0000 ==> num <= r < 2 * num && IsPowerOfTwo(r)
    ensures num > 0x4000_0000 ==> r == INT_MIN
  {
    hide IsPowerOfTwo, BitAnd;
    if num <= 1 {
      return num;
    }
    AndPredecessor(num);
    BigPowers();
    if BitAnd(num, num - 1) != 0 {
      var u := PowerAbove(num);
      PowerInRange(num, u);
      NotBelowTwice(num, u);
      return AsInt32(u);
    }
    if num > 0x4000_0000 {
      PowersAreApart(num, 0x4000_0000);
    }
    r := num;
  }

  /** Twice a number is a power of two only if the number is one. */
  lemma NotBelowTwice(num: nat, u: nat)
    requires IsPowerOfTwo(u) && num > 0 && !IsPowerOfTwo(num) && u <= 2 * num
    ensures u < 2 * num
  {
  }

  /** Rounding a size up to a power of two stays within a power of two. */
  lemma {:induction false} NextPowerWithin(num: nat, r: nat, q: nat)
    requires IsPowerOfTwo(r) && IsPowerOfTwo(q) && num <= q && num <= r < 2 * num
    ensures r <= q
    decreases q
  {
    if r > 1 && q > 1 {
      NextPowerWithin((num + 1) / 2, r / 2, q / 2);
    }
  }

  // ----- split -----

  /** `find_first_of`: the first position from `from` on that holds one of the separators, the
      length if there is none. */
  function FindFrom(s: string, separators: string, from: nat): (i: nat)
    requires from <= |s|
    ensures from <= i <= |s| && (i < |s| ==> s[i] in separators) && forall j | from <= j < i :: s[j] !in separators
    decreases |s| - from
  {
    if from == |s| || s[from] in separators then from else FindFrom(s, separators, from + 1)
  }

  /** The pieces between the separators. There is always at least one. */
  function Split(s: string, separators: string): (pieces: seq<string>)
    ensures pieces != []
    decreases |s|
  {
    var i := FindFrom(s, separators, 0);
    if i == |s| then [s] else [s[..i]] + Split(s[i + 1..], separators)
  }

  function Join(pieces: seq<string>, separator: char): string
    requires pieces != []
  {
    if |pieces| == 1 then pieces[0] else pieces[0] + [separator] + Join(pieces[1..], separator)
  }

  /** `split`: every character of `separate` separates. Its last test compares two unsigned numbers
      and always holds, so that the piece behind the last separator is added even if it is empty. */
  method SplitInto(s: string, separate: string) returns (ret: seq<string>)
    ensures ret == Split(s, separate)
  {
    hide Split, FindFrom;
    ret := [];
    var last := 0;
    var index := FindFrom(s, separate, last);
    ghost var rest := Split(s, separate);
    assert s[0..] == s;
    while index != |s|
      invariant 0 <= last <= |s| && index == FindFrom(s, separate, last)
      invariant rest == Split(s[last..], separate) && ret + rest == Split(s, separate)
      decreases |s| - last
    {
      SplitStep(s, separate, last);
      Regroup(ret, [s[last..index]], Split(s[index + 1..], separate));
      ret, rest := ret + [s[last..index]], Split(s[index + 1..], separate);
      last := index + 1;
      index := FindFrom(s, separate, last);
    }
    SplitStep(s, separate, last);
    assert s[last..index] == s[last..];
    ret := ret + [s[last..index]];
  }

  lemma {:induction false} FindShifted(s: string, separators: string, last: nat, from: nat)
    requires last <= from <= |s|
    ensures FindFrom(s[last..], separators, from - last) == FindFrom(s, separators, from) - last
    decreases |s| - from
  {
    if from < |s| && s[from] !in separators {
      FindShifted(s, separators, last, from + 1);
    }
  }

  lemma SplitAtFirst(u: string, separators: string, i: nat)
    requires i == FindFrom(u, separators, 0)
    ensures Split(u, separators) == if i == |u| then [u] else [u[..i]] + Split(u[i + 1..], separators)
  {
  }

  lemma SplitStep(s: string, separators: string, last: nat)
    requires last <= |s|
    ensures var index := FindFrom(s, separators, last);
      Split(s[last..], separators) ==
        if index == |s| then [s[last..]] else [s[last..index]] + Split(s[index + 1..], separators)
  {
    hide FindFrom, Split;
    FindShifted(s, separators, last, last);
    var index := FindFrom(s, separators, last);
    var u := s[last..];
    SplitAtFirst(u, separators, index - last);
    if index < |s| {
      assert u[..index - last] == s[last..index];
      assert u[index - last + 1..] == s[index + 1..];
    }
  }

  /** Joining the pieces gives the text back, for every text and one separating character. */
  lemma {:induction false} JoinUndoesSplit(s: string, separator: char)
    ensures Join(Split(s, [separator]), separator) == s
    decreases |s|
  {
    var i := FindFrom(s, [separator], 0);
    if i < |s| {
      JoinUndoesSplit(s[i + 1..], separator);
      assert s == s[..i] + [separator] + s[i + 1..];
    }
  }

  ghost predicate Free(s: string, separator: char) {
    forall i | 0 <= i < |s| :: s[i] != separator
  }

  lemma {:induction false} FindBehind(s: string, separator: char, rest: string, from: nat)
    requires Free(s, separator) && from <= |s| && (rest == "" || rest[0] == separator)
    ensures FindFrom(s + rest, [separator], from) == |s|
    decreases |s| - from
  {
    if from < |s| {
      FindBehind(s, separator, rest, from + 1);
    }
  }

  /** Splitting what was joined gives the pieces back, for every list of at least one piece
      without a separator in it. */
  lemma {:induction false} SplitUndoesJoin(pieces: seq<string>, separator: char)
    requires pieces != [] && forall i | 0 <= i < |pieces| :: Free(pieces[i], separator)
    ensures Split(Join(pieces, separator), [separator]) == pieces
  {
    var p := pieces[0];
    if |pieces| == 1 {
      FindBehind(p, separator, "", 0);
      assert p + "" == p;
    } else {
      var tail := Join(pieces[1..], separator);
      SplitUndoesJoin(pieces[1..], separator);
      FindBehind(p, separator, [separator] + tail, 0);
      var s := Join(pieces, separator);
      assert s == p + ([separator] + tail);
      assert s[..|p|] == p && s[|p| + 1..] == tail;
    }
  }

  // ----- the broadcast list -----

  function IdTexts(ids: seq<int>): (ts: seq<string>)
    ensures |ts| == |ids| && forall i | 0 <= i < |ids| :: ts[i] == IntText(ids[i])
  {
    seq(|ids|, i requires 0 <= i < |ids| => IntText(ids[i]))
  }

  /** `MQ2C_Push_Broadcast` on the text of the ids: split at the commas, `atoi` each piece and keep
      it as a `uint32_t`. Numbers outside the range of `int` are not defined by `atoi`. */
  method ParseIds(uniqids: string) returns (ids: seq<nat>)
    ensures var pieces := Split(uniqids, ",");
      && |ids| == |pieces|
      && forall i | 0 <= i < |ids| :: INT_MIN <= Atoi(pieces[i]) <= INT_MAX ==> ids[i] == AsUint32(Atoi(pieces[i]))
  {
    hide Split, Atoi;
    var list := SplitInto(uniqids, ",");
    ids := [];
    for i := 0 to |list|
      invariant |ids| == i && forall j | 0 <= j < i :: ids[j] == AsUint32(Atoi(list[j]))
    {
      ids := ids + [AsUint32(Atoi(list[i]))];
    }
  }

  /** A list of at least one id survives its text encoding. */
  method BroadcastIds(sent: seq<int>) returns (ids: seq<nat>)
    requires sent != [] && forall i | 0 <= i < |sent| :: 0 <= sent[i] <= INT_MAX
    ensures ids == sent
  {
    hide Split, Atoi, Join;
    forall i | 0 <= i < |sent|
      ensures Free(IdTexts(sent)[i], ',') && Atoi(IdTexts(sent)[i]) == sent[i]
    {
      AtoiUndoesIntText("", sent[i], "");
      assert "" + (IntText(sent[i]) + "") == IntText(sent[i]);
      NoComma(sent[i]);
    }
    SplitUndoesJoin(IdTexts(sent), ',');
    ids := ParseIds(Join(IdTexts(sent), ','));
  }

  lemma NoComma(n: int)
    ensures Free(IntText(n), ',')
  {
    var s := IntText(n);
    assert forall i | 0 <= i < |s| :: s[i] in s;
  }
}
