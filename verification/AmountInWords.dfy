/**
 Rendering a currency amount as English words, and reading it back. Amounts are integer cents.
 The printer appends to a list of parts and joins them; the reader splits the text into words.
 Everything but the last section holds of any vocabulary whose words can be told apart.
 */
module AmountInWords {
  import opened Wrappers

  /** Words for 1..19 and for the tens, and the three scale names, "Hundred" and "Zero". */
  datatype Vocabulary = Vocabulary(ones: seq<string>, tens: seq<string>, keywords: seq<string>)

  const HUNDRED: nat := 3
  const ZERO: nat := 4

  predicate Plain(w: string) {
    ' ' !in w && '-' !in w
  }

  predicate Readable(v: Vocabulary) {
    && |v.ones| == 20 && |v.tens| == 10 && |v.keywords| == 5
    && (forall i | 1 <= i < 20 :: Plain(v.ones[i]))
    && (forall i | 2 <= i < 10 :: Plain(v.tens[i]))
    && (forall i | 0 <= i < 5 :: Plain(v.keywords[i]))
    && (forall i, j | 1 <= i < j < 20 :: v.ones[i] != v.ones[j])
    && (forall i, j | 2 <= i < j < 10 :: v.tens[i] != v.tens[j])
    && (forall i, j | 0 <= i < j < 5 :: v.keywords[i] != v.keywords[j])
    && (forall i, j | 1 <= i < 20 && 2 <= j < 10 :: v.ones[i] != v.tens[j])
    && (forall i, j | 1 <= i < 20 && 0 <= j < 5 :: v.ones[i] != v.keywords[j])
    && (forall i, j | 2 <= i < 10 && 0 <= j < 5 :: v.tens[i] != v.keywords[j])
  }

  function Scale(i: nat): nat
    requires i < 3
  {
    if i == 0 then 1_000_000_000 else if i == 1 then 1_000_000 else 1_000
  }

  /** From here on, in pesos, the table of ones is left behind. */
  const LIMIT: nat := 2_000_000_000_000

  // ----- the words, one by one -----

  function SmallWord(v: Vocabulary, r: nat): string
    requires Readable(v) && 0 < r < 100
  {
    if r < 20 then v.ones[r] else v.tens[r / 10] + if r % 10 > 0 then "-" + v.ones[r % 10] else ""
  }

  function Remainder(v: Vocabulary, r: nat): seq<string>
    requires Readable(v) && r < 100
  {
    if r > 0 then [SmallWord(v, r)] else []
  }

  function GroupWords(v: Vocabulary, n: nat): seq<string>
    requires Readable(v) && n < 2000
  {
    (if n / 100 > 0 then [v.ones[n / 100], v.keywords[HUNDRED]] else []) + Remainder(v, n % 100)
  }

  /** What scale i and the smaller ones can still be asked to print. */
  predicate InScale(remaining: nat, i: nat) {
    match i
    case 0 => remaining < LIMIT
    case 1 => remaining < 1_000_000_000
    case 2 => remaining < 1_000_000
    case _ => remaining < 1_000
  }

  lemma ScaleBounds(remaining: nat, i: nat)
    requires i < 3 && InScale(remaining, i)
    ensures remaining / Scale(i) < 2000 && InScale(remaining % Scale(i), i + 1)
    ensures remaining == remaining / Scale(i) * Scale(i) + remaining % Scale(i)
    ensures if remaining >= Scale(i) then remaining / Scale(i) > 0
            else remaining / Scale(i) == 0 && remaining % Scale(i) == remaining
    ensures remaining % Scale(i) <= remaining
  {}

  function WordsFrom(v: Vocabulary, remaining: nat, i: nat): seq<string>
    requires Readable(v) && i <= 3 && InScale(remaining, i)
    decreases 3 - i, remaining
  {
    if i == 3 then GroupWords(v, remaining)
    else if remaining >= Scale(i) then
      ScaleBounds(remaining, i);
      GroupWords(v, remaining / Scale(i)) + [v.keywords[i]] + WordsFrom(v, remaining % Scale(i), i + 1)
    else WordsFrom(v, remaining, i + 1)
  }

  function IntegerWords(v: Vocabulary, n: nat): seq<string>
    requires Readable(v) && n < LIMIT
  {
    if n == 0 then [v.keywords[ZERO]] else WordsFrom(v, n, 0)
  }

  function Digit(d: nat): char
    requires d < 10
  {
    '0' + d as char
  }

  function CentsWord(cents: nat): string
    requires cents < 100
  {
    [Digit(cents / 10), Digit(cents % 10)] + "/100"
  }

  function AmountWords(v: Vocabulary, cents: nat): seq<string>
    requires Readable(v) && cents / 100 < LIMIT
  {
    IntegerWords(v, cents / 100) + ["Pesos", "and", CentsWord(cents % 100)]
  }

  // ----- joining and splitting -----

  function Join(ws: seq<string>): string {
    if ws == [] then "" else if |ws| == 1 then ws[0] else ws[0] + " " + Join(ws[1..])
  }

  lemma {:induction false} JoinConcat(a: seq<string>, b: seq<string>)
    requires a != [] && b != []
    ensures Join(a + b) == Join(a) + " " + Join(b)
  {
    if |a| == 1 {
      assert (a + b)[1..] == b;
    } else {
      assert (a + b)[1..] == a[1..] + b;
      JoinConcat(a[1..], b);
      assert a[0] + " " + (Join(a[1..]) + " " + Join(b)) == (a[0] + " " + Join(a[1..])) + " " + Join(b);
    }
  }

  function FirstOf(c: char, s: string): (k: nat)
    ensures k <= |s| && c !in s[..k] && (k < |s| ==> s[k] == c)
  {
    if s == "" || s[0] == c then 0
    else
      var k := 1 + FirstOf(c, s[1..]);
      assert s[..k] == [s[0]] + s[1..][..k - 1];
      k
  }

  function Split(s: string): seq<string>
    decreases |s|
  {
    var k := FirstOf(' ', s);
    if k == |s| then [s] else [s[..k]] + Split(s[k + 1..])
  }

  lemma {:induction false} FirstOfSplit(c: char, a: string, b: string)
    requires c !in a
    ensures FirstOf(c, a + [c] + b) == |a|
    ensures FirstOf(c, a) == |a|
  {
    if a == "" {
      assert (a + [c] + b)[0] == c;
    } else {
      assert a[0] != c && a[0] in a;
      assert (a + [c] + b)[1..] == a[1..] + [c] + b;
      FirstOfSplit(c, a[1..], b);
    }
  }

  lemma {:induction false} SplitJoin(ws: seq<string>)
    requires ws != [] && forall w | w in ws :: ' ' !in w
    ensures Split(Join(ws)) == ws
  {
    FirstOfSplit(' ', ws[0], Join(ws[1..]));
    if |ws| > 1 {
      var s := ws[0] + " " + Join(ws[1..]);
      assert s[..|ws[0]|] == ws[0] && s[|ws[0]| + 1..] == Join(ws[1..]);
      SplitJoin(ws[1..]);
      assert ws == [ws[0]] + ws[1..];
    }
  }

  // ----- the reader -----

  /** Position of w in a table at or after `from`, or the table's length. */
  function Find(table: seq<string>, w: string, from: nat): nat
    requires from <= |table|
    decreases |table| - from
  {
    if from == |table| || table[from] == w then from else Find(table, w, from + 1)
  }

  lemma {:induction false} FindAt(table: seq<string>, k: nat, from: nat)
    requires from <= k < |table|
    requires forall i | from <= i < k :: table[i] != table[k]
    ensures Find(table, table[k], from) == k
    decreases k - from
  {
    if from == k {
    } else {
      FindAt(table, k, from + 1);
    }
  }

  lemma {:induction false} FindNone(table: seq<string>, w: string, from: nat)
    requires from <= |table| && forall i | from <= i < |table| :: table[i] != w
    ensures Find(table, w, from) == |table|
    decreases |table| - from
  {
    if from == |table| {
    } else {
      FindNone(table, w, from + 1);
    }
  }

  /** The value of a word below one hundred. */
  function SmallValue(v: Vocabulary, w: string): Option<nat>
    requires Readable(v)
  {
    var k := FirstOf('-', w);
    if k < |w| then
      var tens, ones := Find(v.tens, w[..k], 2), Find(v.ones, w[k + 1..], 1);
      if tens < 10 && ones < 10 then Some(10 * tens + ones) else None
    else if Find(v.ones, w, 1) < 20 then Some(Find(v.ones, w, 1))
    else if Find(v.tens, w, 2) < 10 then Some(10 * Find(v.tens, w, 2))
    else None
  }

  /** Reads words left to right: `total` is closed by a scale name, `group` is still growing. */
  function ReadWords(v: Vocabulary, ws: seq<string>, total: nat, group: nat): Option<nat>
    requires Readable(v)
    decreases ws
  {
    if ws == [] then Some(total + group)
    else
      var k := Find(v.keywords, ws[0], 0);
      if k < 3 then ReadWords(v, ws[1..], total + group * Scale(k), 0)
      else if k == HUNDRED then ReadWords(v, ws[1..], total, group * 100)
      else if k == ZERO then ReadWords(v, ws[1..], total, group)
      else
        match SmallValue(v, ws[0])
        case None => None
        case Some(n) => ReadWords(v, ws[1..], total, group + n)
  }

  function ReadDigit(c: char): Option<nat> {
    if '0' <= c <= '9' then Some((c - '0') as nat) else None
  }

  function ReadCents(w: string): Option<nat> {
    if |w| != 6 || w[2..] != "/100" then None
    else
      match (ReadDigit(w[0]), ReadDigit(w[1]))
      case (Some(a), Some(b)) => Some(10 * a + b)
      case _ => None
  }

  function ReadAmount(v: Vocabulary, s: string): Option<nat>
    requires Readable(v)
  {
    var ws := Split(s);
    var n := |ws| - 3;
    if n < 1 || ws[n] != "Pesos" || ws[n + 1] != "and" then None
    else
      match (ReadWords(v, ws[..n], 0, 0), ReadCents(ws[n + 2]))
      case (Some(pesos), Some(cents)) => Some(100 * pesos + cents)
      case _ => None
  }

  // ----- words below one hundred -----

  lemma NoHyphen(w: string)
    requires Plain(w)
    ensures FirstOf('-', w) == |w|
  {
    FirstOfSplit('-', w, "");
  }

  lemma OneRead(v: Vocabulary, r: nat)
    requires Readable(v) && 0 < r < 20
    ensures Find(v.ones, v.ones[r], 1) == r && SmallValue(v, v.ones[r]) == Some(r)
    ensures Plain(v.ones[r])
  {
    NoHyphen(v.ones[r]);
    FindAt(v.ones, r, 1);
  }

  lemma TenRead(v: Vocabulary, t: nat)
    requires Readable(v) && 2 <= t < 10
    ensures Find(v.tens, v.tens[t], 2) == t && SmallValue(v, v.tens[t]) == Some(10 * t)
    ensures Plain(v.tens[t])
  {
    NoHyphen(v.tens[t]);
    FindAt(v.tens, t, 2);
    FindNone(v.ones, v.tens[t], 1);
  }

  lemma HyphenRead(v: Vocabulary, t: nat, o: nat)
    requires Readable(v) && 2 <= t < 10 && 0 < o < 10
    ensures SmallValue(v, v.tens[t] + "-" + v.ones[o]) == Some(10 * t + o)
    ensures ' ' !in v.tens[t] + "-" + v.ones[o]
  {
    var a, b := v.tens[t], v.ones[o];
    TenRead(v, t);
    OneRead(v, o);
    assert Plain(a) && Plain(b);
    FirstOfSplit('-', a, b);
    var w := a + "-" + b;
    assert w[..|a|] == a && w[|a| + 1..] == b;
  }

  lemma SmallWordRead(v: Vocabulary, r: nat)
    requires Readable(v) && 0 < r < 100
    ensures SmallValue(v, SmallWord(v, r)) == Some(r) && ' ' !in SmallWord(v, r)
  {
    var t, o := r / 10, r % 10;
    assert r == 10 * t + o;
    if r < 20 {
      OneRead(v, r);
    } else if o == 0 {
      assert SmallWord(v, r) == v.tens[t];
      TenRead(v, t);
    } else {
      assert SmallWord(v, r) == v.tens[t] + "-" + v.ones[o];
      HyphenRead(v, t, o);
    }
  }

  /** A word with a value is none of the keywords. */
  lemma NumberIsNoKeyword(v: Vocabulary, w: string)
    requires Readable(v) && SmallValue(v, w).Some?
    ensures Find(v.keywords, w, 0) == 5
  {
    forall k | 0 <= k < 5 ensures v.keywords[k] != w {
      NoHyphen(v.keywords[k]);
      FindNone(v.ones, v.keywords[k], 1);
      FindNone(v.tens, v.keywords[k], 2);
    }
    FindNone(v.keywords, w, 0);
  }

  // ----- the round trip -----

  lemma ReadNumber(v: Vocabulary, w: string, n: nat, rest: seq<string>, total: nat, group: nat)
    requires Readable(v) && SmallValue(v, w) == Some(n)
    ensures ReadWords(v, [w] + rest, total, group) == ReadWords(v, rest, total, group + n)
  {
    NumberIsNoKeyword(v, w);
    assert ([w] + rest)[1..] == rest;
  }

  lemma ReadKeyword(v: Vocabulary, k: nat, rest: seq<string>, total: nat, group: nat)
    requires Readable(v) && k < 5
    ensures ReadWords(v, [v.keywords[k]] + rest, total, group) ==
            if k < 3 then ReadWords(v, rest, total + group * Scale(k), 0)
            else ReadWords(v, rest, total, if k == HUNDRED then group * 100 else group)
  {
    FindAt(v.keywords, k, 0);
    assert ([v.keywords[k]] + rest)[1..] == rest;
  }

  lemma ReadRemainder(v: Vocabulary, r: nat, rest: seq<string>, total: nat, group: nat)
    requires Readable(v) && r < 100
    ensures ReadWords(v, Remainder(v, r) + rest, total, group) == ReadWords(v, rest, total, group + r)
  {
    if r > 0 {
      SmallWordRead(v, r);
      ReadNumber(v, SmallWord(v, r), r, rest, total, group);
    } else {
      assert [] + rest == rest;
    }
  }

  lemma ReadGroup(v: Vocabulary, n: nat, rest: seq<string>, total: nat)
    requires Readable(v) && n < 2000
    ensures ReadWords(v, GroupWords(v, n) + rest, total, 0) == ReadWords(v, rest, total, n)
  {
    var h, small := n / 100, Remainder(v, n % 100);
    ReadRemainder(v, n % 100, rest, total, 100 * h);
    if h > 0 {
      assert GroupWords(v, n) + rest == [v.ones[h]] + ([v.keywords[HUNDRED]] + (small + rest));
      OneRead(v, h);
      ReadNumber(v, v.ones[h], h, [v.keywords[HUNDRED]] + (small + rest), total, 0);
      ReadKeyword(v, HUNDRED, small + rest, total, h);
    } else {
      assert GroupWords(v, n) + rest == small + rest;
    }
  }

  lemma ReadScaled(v: Vocabulary, count: nat, i: nat, tail: seq<string>, total: nat)
    requires Readable(v) && count < 2000 && i < 3
    ensures ReadWords(v, GroupWords(v, count) + [v.keywords[i]] + tail, total, 0)
            == ReadWords(v, tail, total + count * Scale(i), 0)
  {
    ReadGroup(v, count, [v.keywords[i]] + tail, total);
    assert GroupWords(v, count) + [v.keywords[i]] + tail == GroupWords(v, count) + ([v.keywords[i]] + tail);
    ReadKeyword(v, i, tail, total, count);
  }

  lemma ReadLast(v: Vocabulary, n: nat, total: nat)
    requires Readable(v) && n < 2000
    ensures ReadWords(v, GroupWords(v, n), total, 0) == Some(total + n)
  {
    ReadGroup(v, n, [], total);
    assert GroupWords(v, n) + [] == GroupWords(v, n);
  }

  lemma ReadPrinted(v: Vocabulary, remaining: nat, i: nat, total: nat)
    requires Readable(v) && i < 3 && InScale(remaining, i) && remaining >= Scale(i)
    ensures remaining % Scale(i) <= remaining && InScale(remaining % Scale(i), i + 1)
    ensures ReadWords(v, WordsFrom(v, remaining, i), total, 0)
            == ReadWords(v, WordsFrom(v, remaining % Scale(i), i + 1), total + (remaining - remaining % Scale(i)), 0)
  {
    ScaleBounds(remaining, i);
    ReadScaled(v, remaining / Scale(i), i, WordsFrom(v, remaining % Scale(i), i + 1), total);
  }

  lemma WordsSkipScale(v: Vocabulary, remaining: nat, i: nat)
    requires Readable(v) && i < 3 && InScale(remaining, i) && remaining < Scale(i)
    ensures InScale(remaining, i + 1) && WordsFrom(v, remaining, i) == WordsFrom(v, remaining, i + 1)
  {}

  lemma {:induction false} ReadFrom(v: Vocabulary, remaining: nat, i: nat, total: nat, ws: seq<string>)
    requires Readable(v) && i <= 3 && InScale(remaining, i) && ws == WordsFrom(v, remaining, i)
    ensures ReadWords(v, ws, total, 0) == Some(total + remaining)
    decreases 3 - i
  {
    if i == 3 {
      ReadLast(v, remaining, total);
    } else if remaining < Scale(i) {
      WordsSkipScale(v, remaining, i);
      ReadFrom(v, remaining, i + 1, total, ws);
    } else {
      var left := remaining % Scale(i);
      ReadPrinted(v, remaining, i, total);
      ReadFrom(v, left, i + 1, total + (remaining - left), WordsFrom(v, left, i + 1));
    }
  }

  lemma GroupSpaceFree(v: Vocabulary, n: nat)
    requires Readable(v) && n < 2000
    ensures forall w | w in GroupWords(v, n) :: ' ' !in w
    ensures n > 0 ==> GroupWords(v, n) != []
  {
    assert n / 100 > 0 ==> Plain(v.ones[n / 100]) && Plain(v.keywords[HUNDRED]);
    if n % 100 > 0 { SmallWordRead(v, n % 100); }
  }

  lemma {:induction false} WordsSpaceFree(v: Vocabulary, remaining: nat, i: nat)
    requires Readable(v) && i <= 3 && InScale(remaining, i)
    ensures forall w | w in WordsFrom(v, remaining, i) :: ' ' !in w
    ensures remaining > 0 ==> WordsFrom(v, remaining, i) != []
    decreases 3 - i
  {
    if i == 3 {
      GroupSpaceFree(v, remaining);
    } else if remaining >= Scale(i) {
      GroupSpaceFree(v, remaining / Scale(i));
      WordsSpaceFree(v, remaining % Scale(i), i + 1);
      assert Plain(v.keywords[i]);
    } else {
      WordsSpaceFree(v, remaining, i + 1);
    }
  }

  lemma CentsRead(cents: nat)
    requires cents < 100
    ensures ReadCents(CentsWord(cents)) == Some(cents) && ' ' !in CentsWord(cents)
  {
    var w, a, b := CentsWord(cents), cents / 10, cents % 10;
    assert w[2..] == "/100" && w[0] == Digit(a) && w[1] == Digit(b);
    assert ReadDigit(Digit(a)) == Some(a) && ReadDigit(Digit(b)) == Some(b);
    assert cents == 10 * a + b;
    assert ' ' !in "/100";
  }

  lemma ReadInteger(v: Vocabulary, n: nat)
    requires Readable(v) && n < LIMIT
    ensures ReadWords(v, IntegerWords(v, n), 0, 0) == Some(n)
  {
    if n == 0 {
      ReadKeyword(v, ZERO, [], 0, 0);
      assert [v.keywords[ZERO]] + [] == IntegerWords(v, 0);
    } else {
      ReadFrom(v, n, 0, 0, WordsFrom(v, n, 0));
    }
  }

  lemma TailSpaceFree(ints: seq<string>, last: string)
    requires (forall w | w in ints :: ' ' !in w) && ' ' !in last
    ensures forall w | w in ints + ["Pesos", "and", last] :: ' ' !in w
  {
    assert ' ' !in "Pesos" && ' ' !in "and";
  }

  lemma ReadSplit(v: Vocabulary, s: string, ints: seq<string>, last: string, pesos: nat, cents: nat)
    requires Readable(v) && ints != [] && Split(s) == ints + ["Pesos", "and", last]
    requires ReadWords(v, ints, 0, 0) == Some(pesos) && ReadCents(last) == Some(cents)
    ensures ReadAmount(v, s) == Some(100 * pesos + cents)
  {
    var ws := Split(s);
    assert ws[..|ws| - 3] == ints;
  }

  lemma ReadAmountOf(v: Vocabulary, ints: seq<string>, pesos: nat, rest: nat)
    requires Readable(v) && ints != [] && rest < 100
    requires (forall w | w in ints :: ' ' !in w) && ReadWords(v, ints, 0, 0) == Some(pesos)
    ensures ReadAmount(v, Join(ints + ["Pesos", "and", CentsWord(rest)])) == Some(100 * pesos + rest)
  {
    var ws := ints + ["Pesos", "and", CentsWord(rest)];
    CentsRead(rest);
    TailSpaceFree(ints, CentsWord(rest));
    SplitJoin(ws);
    ReadSplit(v, Join(ws), ints, CentsWord(rest), pesos, rest);
  }

  lemma IntegerSpaceFree(v: Vocabulary, n: nat)
    requires Readable(v) && n < LIMIT
    ensures IntegerWords(v, n) != [] && forall w | w in IntegerWords(v, n) :: ' ' !in w
  {
    WordsSpaceFree(v, n, 0);
    assert Plain(v.keywords[ZERO]);
  }

  /** Reading the rendered text gives back exactly the cents, for every amount that can be rendered. */
  lemma RoundTrip(v: Vocabulary, cents: nat)
    requires Readable(v) && cents / 100 < LIMIT
    ensures ReadAmount(v, Join(AmountWords(v, cents))) == Some(cents)
  {
    IntegerSpaceFree(v, cents / 100);
    ReadInteger(v, cents / 100);
    ReadAmountOf(v, IntegerWords(v, cents / 100), cents / 100, cents % 100);
  }

  /** So two different amounts never read the same. */
  lemma RenderingInjective(v: Vocabulary, a: nat, b: nat)
    requires Readable(v) && a / 100 < LIMIT && b / 100 < LIMIT
    requires Join(AmountWords(v, a)) == Join(AmountWords(v, b))
    ensures a == b
  {
    RoundTrip(v, a);
    RoundTrip(v, b);
  }

  // ----- the printer -----

  /** Joining parts that are themselves joined words is joining the words. */
  lemma AppendPart(parts: seq<string>, words: seq<string>, part: string, printed: seq<string>)
    requires (parts == [] <==> words == []) && Join(parts) == Join(words)
    requires printed != [] && part == Join(printed)
    ensures Join(parts + [part]) == Join(words + printed)
  {
    if parts == [] {
      assert parts + [part] == [part] && words + printed == printed;
    } else {
      JoinConcat(parts, [part]);
      JoinConcat(words, printed);
    }
  }

  lemma AppendScale(v: Vocabulary, parts: seq<string>, words: seq<string>, count: nat, i: nat)
    requires Readable(v) && 0 < count < 2000 && i < 3
    requires (parts == [] <==> words == []) && Join(parts) == Join(words)
    ensures Join(parts + [Join(GroupWords(v, count)) + " " + v.keywords[i]])
            == Join(words + (GroupWords(v, count) + [v.keywords[i]]))
  {
    GroupSpaceFree(v, count);
    JoinConcat(GroupWords(v, count), [v.keywords[i]]);
    AppendPart(parts, words, Join(GroupWords(v, count)) + " " + v.keywords[i], GroupWords(v, count) + [v.keywords[i]]);
  }

  /** One turn of the scale loop moves words from what remains to what is printed. */
  lemma ScaleStep(v: Vocabulary, words: seq<string>, remaining: nat, i: nat)
    requires Readable(v) && i < 3 && InScale(remaining, i) && remaining >= Scale(i)
    ensures var count, left := remaining / Scale(i), remaining % Scale(i);
            && 0 < count < 2000 && InScale(left, i + 1)
            && words + WordsFrom(v, remaining, i)
               == words + (GroupWords(v, count) + [v.keywords[i]]) + WordsFrom(v, left, i + 1)
  {
    ScaleBounds(remaining, i);
    var printed := GroupWords(v, remaining / Scale(i)) + [v.keywords[i]];
    var tail := WordsFrom(v, remaining % Scale(i), i + 1);
    assert WordsFrom(v, remaining, i) == printed + tail;
    assert words + (printed + tail) == words + printed + tail;
  }

  /** None where the table of ones would be indexed out of range. */
  method ThreeDigitWords(v: Vocabulary, n: nat) returns (text: Option<string>)
    requires Readable(v)
    ensures text == if n < 2000 then Some(Join(GroupWords(v, n))) else None
  {
    var parts: seq<string> := [];
    ghost var words: seq<string> := [];
    var hundreds, remainder := n / 100, n % 100;
    if hundreds > 0 {
      if hundreds >= |v.ones| {
        return None;
      }
      parts := parts + [v.ones[hundreds] + " " + v.keywords[HUNDRED]];
      words := [v.ones[hundreds], v.keywords[HUNDRED]];
      assert words[1..] == [v.keywords[HUNDRED]];
    }
    if remainder > 0 {
      var word := "";
      if remainder < 20 {
        word := v.ones[remainder];
      } else {
        var tens, ones := remainder / 10, remainder % 10;
        word := v.tens[tens] + if ones > 0 then "-" + v.ones[ones] else "";
      }
      AppendPart(parts, words, word, [word]);
      parts := parts + [word];
      words := words + [word];
    }
    assert words == GroupWords(v, n);
    text := Some(Join(parts));
  }

  /** The scale loop: what it has printed and what remains always make up the whole. */
  method IntegerToWords(v: Vocabulary, n: nat) returns (text: Option<string>)
    requires Readable(v)
    ensures text == if n < LIMIT then Some(Join(IntegerWords(v, n))) else None
  {
    if n == 0 {
      return Some(v.keywords[ZERO]);
    }
    var parts: seq<string> := [];
    var remaining: nat := n;
    ghost var words: seq<string> := [];
    for i := 0 to 3
      invariant i > 0 ==> n < LIMIT
      invariant i == 0 ==> remaining == n
      invariant n < LIMIT ==> InScale(remaining, i) && words + WordsFrom(v, remaining, i) == WordsFrom(v, n, 0)
      invariant (parts == [] <==> words == []) && Join(parts) == Join(words)
    {
      if remaining >= Scale(i) {
        if n < LIMIT { ScaleStep(v, words, remaining, i); }
        var count := remaining / Scale(i);
        remaining := remaining % Scale(i);
        var group := ThreeDigitWords(v, count);
        if group == None {
          return None;
        }
        var part := group.value + " " + v.keywords[i];
        ghost var printed := GroupWords(v, count) + [v.keywords[i]];
        AppendScale(v, parts, words, count, i);
        parts := parts + [part];
        words := words + printed;
      }
    }
    GroupSpaceFree(v, remaining);
    if remaining > 0 {
      var group := ThreeDigitWords(v, remaining);
      AppendPart(parts, words, group.value, GroupWords(v, remaining));
      parts := parts + [group.value];
    } else {
      assert words + [] == words;
    }
    text := Some(Join(parts));
  }

  lemma JoinTail(ints: seq<string>, last: string)
    requires ints != []
    ensures Join(ints + ["Pesos", "and", last]) == Join(ints) + " Pesos and " + last
  {
    var tail := ["Pesos", "and", last];
    assert tail[1..] == ["and", last] && tail[1..][1..] == [last];
    assert Join(tail[1..]) == "and" + " " + last;
    assert Join(tail) == "Pesos" + " " + ("and" + " " + last);
    JoinConcat(ints, tail);
    assert Join(ints) + " " + Join(tail) == Join(ints) + " Pesos and " + last;
  }

  /** The line: the integer's words, "Pesos and", and the cents as two digits over a hundred. */
  lemma AmountLine(v: Vocabulary, cents: nat)
    requires Readable(v) && cents / 100 < LIMIT
    ensures Join(AmountWords(v, cents)) == Join(IntegerWords(v, cents / 100)) + " Pesos and " + CentsWord(cents % 100)
    ensures |CentsWord(cents % 100)| == 6 && CentsWord(cents % 100)[2..] == "/100"
  {
    IntegerSpaceFree(v, cents / 100);
    JoinTail(IntegerWords(v, cents / 100), CentsWord(cents % 100));
  }

  /** Fails exactly from two trillion pesos on; below, the text reads back to the very same cents. */
  method RenderAmount(v: Vocabulary, cents: nat) returns (text: Option<string>)
    requires Readable(v)
    ensures text == None <==> cents / 100 >= LIMIT
    ensures text.Some? ==> text.value == Join(AmountWords(v, cents)) && ReadAmount(v, text.value) == Some(cents)
  {
    var pesos, rest := cents / 100, cents % 100;
    var integer := IntegerToWords(v, pesos);
    if integer == None {
      return None;
    }
    text := Some(integer.value + " Pesos and " + CentsWord(rest));
    IntegerSpaceFree(v, pesos);
    JoinTail(IntegerWords(v, pesos), CentsWord(rest));
    RoundTrip(v, cents);
  }

  // ----- the English vocabulary -----

  const ENGLISH := Vocabulary(
    ["", "One", "Two", "Three", "Four", "Five", "Six", "Seven", "Eight", "Nine", "Ten", "Eleven", "Twelve",
     "Thirteen", "Fourteen", "Fifteen", "Sixteen", "Seventeen", "Eighteen", "Nineteen"],
    ["", "", "Twenty", "Thirty", "Forty", "Fifty", "Sixty", "Seventy", "Eighty", "Ninety"],
    ["Billion", "Million", "Thousand", "Hundred", "Zero"])

  lemma OnesApart(i: nat, j: nat)
    requires 1 <= i < j < 20
    ensures ENGLISH.ones[i] != ENGLISH.ones[j]
  {
    var a, b := ENGLISH.ones[i], ENGLISH.ones[j];
    assert |a| != |b| || a[0] != b[0] || a[2] != b[2] || a[3] != b[3];
  }

  lemma TensApart(i: nat, j: nat)
    requires 2 <= i < j < 10
    ensures ENGLISH.tens[i] != ENGLISH.tens[j]
  {
    var a, b := ENGLISH.tens[i], ENGLISH.tens[j];
    assert |a| != |b| || a[0] != b[0] || a[2] != b[2];
  }

  lemma OnesTensApart(i: nat, j: nat)
    requires 1 <= i < 20 && 2 <= j < 10
    ensures ENGLISH.ones[i] != ENGLISH.tens[j]
  {
    var a, b := ENGLISH.ones[i], ENGLISH.tens[j];
    assert |a| != |b| || a[0] != b[0] || a[2] != b[2] || a[3] != b[3];
  }

  lemma KeywordsApart(i: nat, k: nat)
    requires 1 <= i < 20 && k < 5
    ensures ENGLISH.ones[i] != ENGLISH.keywords[k]
    ensures 2 <= i < 10 ==> ENGLISH.tens[i] != ENGLISH.keywords[k]
    ensures k < i < 5 ==> ENGLISH.keywords[k] != ENGLISH.keywords[i]
  {
    var a, x := ENGLISH.ones[i], ENGLISH.keywords[k];
    assert |a| != |x| || a[0] != x[0] || a[2] != x[2];
    if 2 <= i < 10 {
      var b := ENGLISH.tens[i];
      assert |b| != |x| || b[0] != x[0];
    }
    if k < i < 5 { assert ENGLISH.keywords[k][0] != ENGLISH.keywords[i][0]; }
  }

  lemma OnesPlain(i: int)
    requires 1 <= i < 20
    ensures Plain(ENGLISH.ones[i])
  {}

  lemma TensPlain(i: int)
    requires 2 <= i < 10
    ensures Plain(ENGLISH.tens[i])
  {}

  lemma KeywordsPlain(i: int)
    requires 0 <= i < 5
    ensures Plain(ENGLISH.keywords[i])
  {}

  lemma EnglishReadable()
    ensures Readable(ENGLISH)
  {
    var v := ENGLISH;
    forall i | 1 <= i < 20 ensures Plain(v.ones[i]) { OnesPlain(i); }
    forall i | 2 <= i < 10 ensures Plain(v.tens[i]) { TensPlain(i); }
    forall i | 0 <= i < 5 ensures Plain(v.keywords[i]) { KeywordsPlain(i); }
    forall i, j | 1 <= i < j < 20 ensures v.ones[i] != v.ones[j] { OnesApart(i, j); }
    forall i, j | 2 <= i < j < 10 ensures v.tens[i] != v.tens[j] { TensApart(i, j); }
    forall i, j | 1 <= i < 20 && 2 <= j < 10 ensures v.ones[i] != v.tens[j] { OnesTensApart(i, j); }
    forall i, j | 1 <= i < 20 && 0 <= j < 5 ensures v.ones[i] != v.keywords[j] { KeywordsApart(i, j); }
    forall i, j | 2 <= i < 10 && 0 <= j < 5 ensures v.tens[i] != v.keywords[j] { KeywordsApart(i, j); }
    forall i, j | 0 <= i < j < 5 ensures v.keywords[i] != v.keywords[j] { KeywordsApart(j, i); }
  }

  lemma OneName(n: nat)
    requires 1 <= n < 10
    ensures ENGLISH.ones[n] ==
            if n == 1 then "One" else if n == 2 then "Two" else if n == 3 then "Three" else if n == 4 then "Four"
            else if n == 5 then "Five" else if n == 6 then "Six" else if n == 7 then "Seven"
            else if n == 8 then "Eight" else "Nine"
  {}

  lemma TeenName(n: nat)
    requires 10 <= n < 20
    ensures ENGLISH.ones[n] ==
            if n == 10 then "Ten" else if n == 11 then "Eleven" else if n == 12 then "Twelve"
            else if n == 13 then "Thirteen" else if n == 14 then "Fourteen" else if n == 15 then "Fifteen"
            else if n == 16 then "Sixteen" else if n == 17 then "Seventeen" else if n == 18 then "Eighteen"
            else "Nineteen"
  {}

  lemma TenName(t: nat)
    requires 2 <= t < 10
    ensures ENGLISH.tens[t] ==
            if t == 2 then "Twenty" else if t == 3 then "Thirty" else if t == 4 then "Forty"
            else if t == 5 then "Fifty" else if t == 6 then "Sixty" else if t == 7 then "Seventy"
            else if t == 8 then "Eighty" else "Ninety"
  {}

  lemma ScaleName(i: nat)
    requires i < 5
    ensures ENGLISH.keywords[i] ==
            if i == 0 then "Billion" else if i == 1 then "Million" else if i == 2 then "Thousand"
            else if i == 3 then "Hundred" else "Zero"
  {}

  // ----- how the names are put together, in any vocabulary -----

  lemma UnitWords(v: Vocabulary, n: nat)
    requires Readable(v) && 1 <= n < 20
    ensures GroupWords(v, n) == [v.ones[n]]
  {
    assert n / 100 == 0 && n % 100 == n;
  }

  lemma TensWords(v: Vocabulary, t: nat, u: nat, r: nat)
    requires Readable(v) && 2 <= t < 10 && u < 10 && r == 10 * t + u
    ensures GroupWords(v, r) == [v.tens[t] + if u > 0 then "-" + v.ones[u] else ""]
  {
    assert r / 100 == 0 && r % 100 == r && r / 10 == t && r % 10 == u;
  }

  lemma HundredWords(v: Vocabulary, n: nat, r: nat, m: nat)
    requires Readable(v) && 1 <= n < 10 && r < 100 && m == 100 * n + r
    ensures GroupWords(v, m) == [v.ones[n], v.keywords[HUNDRED]] + GroupWords(v, r)
  {
    assert m / 100 == n && m % 100 == r;
    assert r / 100 == 0 && r % 100 == r;
  }

  lemma ScaleDivides(i: nat, count: nat, left: nat, n: nat)
    requires i < 3 && left < Scale(i) && n == count * Scale(i) + left
    ensures n / Scale(i) == count && n % Scale(i) == left
  {
    if i == 0 {
      assert n == count * 1_000_000_000 + left;
    } else if i == 1 {
      assert n == count * 1_000_000 + left;
    } else {
      assert n == count * 1_000 + left;
    }
  }

  /** Scale by scale: so many billions, millions and thousands, where there are any, and what is left. */
  lemma ScaleWords(v: Vocabulary, i: nat, count: nat, left: nat, n: nat)
    requires Readable(v) && i < 3 && 1 <= count < 1000 && left < Scale(i) && n == count * Scale(i) + left
    ensures InScale(n, i) && InScale(left, i + 1)
    ensures WordsFrom(v, n, i) == GroupWords(v, count) + [v.keywords[i]] + WordsFrom(v, left, i + 1)
  {
    ScaleDivides(i, count, left, n);
    assert n >= Scale(i);
  }

  lemma BelowMillion(v: Vocabulary, n: nat)
    requires Readable(v) && 0 < n < 1_000_000
    ensures IntegerWords(v, n) == WordsFrom(v, n, 2)
  {
    assert WordsFrom(v, n, 0) == WordsFrom(v, n, 1);
    assert WordsFrom(v, n, 1) == WordsFrom(v, n, 2);
  }

  /** The documented example, 1250, put together from its names. */
  lemma DocumentedWords(v: Vocabulary, n: nat, hundreds: nat, tens: nat)
    requires Readable(v) && n == 1000 + hundreds && hundreds == 200 + tens && tens == 50
    ensures IntegerWords(v, n) == [v.ones[1], v.keywords[2], v.ones[2], v.keywords[HUNDRED], v.tens[5]]
  {
    BelowMillion(v, n);
    ScaleWords(v, 2, 1, hundreds, n);
    UnitWords(v, 1);
    HundredWords(v, 2, tens, hundreds);
    TensWords(v, 5, 0, tens);
    assert v.tens[5] + "" == v.tens[5];
    assert WordsFrom(v, hundreds, 3) == GroupWords(v, hundreds);
  }

  /** In English it reads as documented. */
  lemma DocumentedAmount(v: Vocabulary, n: nat)
    requires v == ENGLISH && n == 1250
    ensures Readable(v) && IntegerWords(v, n) == ["One", "Thousand", "Two", "Hundred", "Fifty"]
  {
    EnglishReadable();
    DocumentedWords(v, n, n - 1000, n - 1200);
    OneName(1);
    OneName(2);
    ScaleName(2);
    ScaleName(3);
    TenName(5);
  }

  /** The receipt's amount line. */
  method AmountToWords(cents: nat) returns (text: Option<string>)
    ensures Readable(ENGLISH)
    ensures text == None <==> cents / 100 >= LIMIT
    ensures text.Some? ==>
              text.value == Join(AmountWords(ENGLISH, cents)) && ReadAmount(ENGLISH, text.value) == Some(cents)
  {
    EnglishReadable();
    text := RenderAmount(ENGLISH, cents);
  }
}
