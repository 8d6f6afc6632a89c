/** The text parsing of two commands: `massban`, which reads user ids out of a free-form list, and
    the on/off toggle shared by `inviteblock`, `antiraid` and `safemode`. */
module Parsing {
  import opened Common

  // ---------------------------------------------------------------------------
  // tokens

  /** The characters Python's `str.split()` with no argument splits on (those `str.isspace` accepts). */
  predicate IsSpace(c: char)
  {
    var u := c as int;
    || (0x09 <= u <= 0x0D) || (0x1C <= u <= 0x20) || u == 0x85 || u == 0xA0 || u == 0x1680
    || (0x2000 <= u <= 0x200A) || u == 0x2028 || u == 0x2029 || u == 0x202F || u == 0x205F
    || u == 0x3000
  }

  /** A non-empty stretch of text with no separator in it. */
  predicate IsWord(w: string)
  {
    w != [] && forall i :: 0 <= i < |w| ==> !IsSpace(w[i])
  }

  /** `user_ids.replace(",", " ")`. */
  function ReplaceCommas(s: string): (r: string)
    ensures |r| == |s|
    ensures forall i :: 0 <= i < |s| ==> r[i] == if s[i] == ',' then ' ' else s[i]
  {
    seq(|s|, i requires 0 <= i < |s| => if s[i] == ',' then ' ' else s[i])
  }

  /** The longest prefix of `s` holding no separator. */
  function Word(s: string): (w: string)
    ensures |w| <= |s| && w == s[..|w|]
    ensures forall i :: 0 <= i < |w| ==> !IsSpace(w[i])
    ensures |w| < |s| ==> IsSpace(s[|w|])
  {
    if s == [] || IsSpace(s[0]) then [] else [s[0]] + Word(s[1..])
  }

  /** `str.split()`: the maximal runs of non-separators, in order. */
  function Split(s: string): (ts: seq<string>)
    ensures forall k :: 0 <= k < |ts| ==> IsWord(ts[k])
    decreases |s|
  {
    if s == [] then []
    else if IsSpace(s[0]) then Split(s[1..])
    else
      var w := Word(s);
      [w] + Split(s[|w|..])
  }

  /** The tokens `massban` reads: commas and whitespace both separate ids. */
  function Tokens(s: string): (ts: seq<string>)
    ensures forall k :: 0 <= k < |ts| ==> IsWord(ts[k]) && ',' !in ts[k]
  {
    var r := ReplaceCommas(s);
    assert forall i :: 0 <= i < |r| ==> r[i] != ',';
    SplitAvoids(r, ',');
    Split(r)
  }

  /** A character the text lacks is in none of its tokens. */
  lemma {:induction false} SplitAvoids(s: string, x: char)
    requires x !in s
    ensures forall k :: 0 <= k < |Split(s)| ==> x !in Split(s)[k]
    decreases |s|
  {
    if s != [] {
      if IsSpace(s[0]) {
        assert x !in s[1..];
        SplitAvoids(s[1..], x);
      } else {
        var w := Word(s);
        assert x !in w && x !in s[|w|..];
        SplitAvoids(s[|w|..], x);
      }
    }
  }

  /** Words written one after another with `sep` between them. */
  function Join(ts: seq<string>, sep: char): string
  {
    if ts == [] then []
    else if |ts| == 1 then ts[0]
    else ts[0] + [sep] + Join(ts[1..], sep)
  }

  lemma {:induction false} WordOfJoin(w: string, rest: string)
    requires IsWord(w)
    requires rest == [] || IsSpace(rest[0])
    ensures Word(w + rest) == w
    decreases |w|
  {
    if |w| == 1 {
      assert (w + rest)[1..] == rest;
    } else {
      assert (w + rest)[1..] == w[1..] + rest;
      WordOfJoin(w[1..], rest);
    }
  }

  /** Splitting words that were joined by a separator gives the words back. */
  lemma {:induction false} SplitJoin(ts: seq<string>, sep: char)
    requires IsSpace(sep)
    requires forall k :: 0 <= k < |ts| ==> IsWord(ts[k])
    ensures Split(Join(ts, sep)) == ts
  {
    if |ts| == 1 {
      WordOfJoin(ts[0], []);
      assert ts[0] + [] == ts[0];
      assert Join(ts, sep)[|ts[0]|..] == [];
    } else if |ts| > 1 {
      var w, rest := ts[0], [sep] + Join(ts[1..], sep);
      assert Join(ts, sep) == w + rest;
      WordOfJoin(w, rest);
      assert (w + rest)[|w|..] == rest;
      assert rest[1..] == Join(ts[1..], sep);
      SplitJoin(ts[1..], sep);
      assert [w] + ts[1..] == ts;
    }
  }

  /** A separator (or the end of the text) after `a` ends the word at the front of `a`. */
  lemma {:induction false} WordBefore(a: string, rest: string)
    requires rest == [] || IsSpace(rest[0])
    ensures Word(a + rest) == Word(a)
    decreases |a|
  {
    if a == [] {
      assert a + rest == rest;
    } else if IsSpace(a[0]) {
      assert (a + rest)[0] == a[0];
    } else {
      assert (a + rest)[1..] == a[1..] + rest;
      WordBefore(a[1..], rest);
    }
  }

  /** A single word splits into itself. */
  lemma SplitWord(w: string)
    requires IsWord(w)
    ensures Split(w) == [w]
  {
    WordOfJoin(w, []);
    assert w + [] == w;
    assert w[|w|..] == [];
  }

  /** A separator cuts the text in two: the tokens are those of each side, in order. Runs of
      separators therefore give no empty tokens and lose no word. */
  lemma {:induction false} SplitAt(a: string, c: char, b: string)
    requires IsSpace(c)
    ensures Split(a + [c] + b) == Split(a) + Split(b)
    decreases |a|
  {
    var s := a + [c] + b;
    if a == [] {
      assert s[0] == c && s[1..] == b;
      assert Split(a) + Split(b) == Split(b);
    } else if IsSpace(a[0]) {
      assert s[0] == a[0] && s[1..] == a[1..] + [c] + b;
      SplitAt(a[1..], c, b);
    } else {
      assert s == a + ([c] + b) && s[0] == a[0];
      WordBefore(a, [c] + b);
      var w := Word(a);
      assert s[|w|..] == a[|w|..] + [c] + b;
      SplitAt(a[|w|..], c, b);
    }
  }

  /** `replace` works character by character, so it distributes over concatenation. */
  lemma ReplaceCommasAt(a: string, c: char, b: string)
    ensures ReplaceCommas(a + [c] + b) == ReplaceCommas(a) + [if c == ',' then ' ' else c] + ReplaceCommas(b)
  {
  }

  /** In the `massban` list a comma or a whitespace character cuts the text in two. */
  lemma TokensAt(a: string, c: char, b: string)
    requires c == ',' || IsSpace(c)
    ensures Tokens(a + [c] + b) == Tokens(a) + Tokens(b)
  {
    ReplaceCommasAt(a, c, b);
    SplitAt(ReplaceCommas(a), if c == ',' then ' ' else c, ReplaceCommas(b));
  }

  /** A word without commas is one token. */
  lemma TokensOfWord(w: string)
    requires IsWord(w) && ',' !in w
    ensures Tokens(w) == [w]
  {
    assert ReplaceCommas(w) == w;
    SplitWord(w);
  }

  /** A list written with a comma and a space, like `123, 456`, reads as its two ids. */
  lemma TokensCommaSpace(a: string, b: string)
    requires IsWord(a) && ',' !in a && IsWord(b) && ',' !in b
    ensures Tokens(a + [',', ' '] + b) == [a, b]
  {
    assert a + [',', ' '] + b == a + [','] + ([] + [' '] + b);
    TokensAt(a, ',', [] + [' '] + b);
    TokensAt([], ' ', b);
    TokensOfWord(a);
    TokensOfWord(b);
  }

  /** A comma-separated list of ids (`123,456,789`) reads back as those ids. */
  lemma TokensOfCommaList(ts: seq<string>)
    requires forall k :: 0 <= k < |ts| ==> IsWord(ts[k]) && ',' !in ts[k]
    ensures Tokens(Join(ts, ',')) == ts
  {
    CommasToSpaces(ts);
    SplitJoin(ts, ' ');
  }

  lemma {:induction false} CommasToSpaces(ts: seq<string>)
    requires forall k :: 0 <= k < |ts| ==> ',' !in ts[k]
    ensures ReplaceCommas(Join(ts, ',')) == Join(ts, ' ')
  {
    if |ts| == 1 {
      assert ReplaceCommas(ts[0]) == ts[0];
    } else if |ts| > 1 {
      CommasToSpaces(ts[1..]);
      var a, b := ts[0], Join(ts[1..], ',');
      assert Join(ts, ',') == a + [','] + b;
      assert ReplaceCommas(a + [','] + b) == ReplaceCommas(a) + [' '] + ReplaceCommas(b);
      assert ReplaceCommas(a) == a;
    }
  }

  // ---------------------------------------------------------------------------
  // ids

  /** `str.isdigit()`, for the decimal digits `0`-`9`: a non-empty run of them. */
  predicate IsDigits(s: string)
  {
    s != [] && forall i :: 0 <= i < |s| ==> '0' <= s[i] <= '9'
  }

  /** `int(s)` for a run of decimal digits; leading zeros are allowed. */
  function ParseNat(s: string): (n: nat)
    requires forall i :: 0 <= i < |s| ==> '0' <= s[i] <= '9'
    ensures n < Pow10(|s|)
  {
    if s == [] then 0 else 10 * ParseNat(s[..|s| - 1]) + (s[|s| - 1] - '0') as nat
  }

  function Pow10(k: nat): (p: nat)
    ensures p >= 1
  {
    if k == 0 then 1 else 10 * Pow10(k - 1)
  }

  /** The decimal text of `n`, without leading zeros. */
  function Decimal(n: nat): string
  {
    if n < 10 then [('0' as int + n) as char] else Decimal(n / 10) + [('0' as int + n % 10) as char]
  }

  /** Every id typed in decimal reads back as itself. */
  lemma {:induction false} ParseDecimal(n: nat)
    ensures IsDigits(Decimal(n))
    ensures ParseNat(Decimal(n)) == n
  {
    if n >= 10 {
      ParseDecimal(n / 10);
      var s := Decimal(n);
      assert s[..|s| - 1] == Decimal(n / 10);
    }
  }

  /** The ids `massban` tries to ban, in order: one per all-digit token, the other tokens skipped. */
  function DigitIds(ts: seq<string>): (ids: seq<Id>)
    ensures |ids| <= |ts|
  {
    if ts == [] then []
    else
      var last := ts[|ts| - 1];
      DigitIds(ts[..|ts| - 1]) + (if IsDigits(last) then [ParseNat(last)] else [])
  }

  /** Every all-digit token contributes its value; no token is dropped exactly when all tokens are digits. */
  lemma {:induction false} DigitIdsComplete(ts: seq<string>)
    ensures forall k :: 0 <= k < |ts| && IsDigits(ts[k]) ==> ParseNat(ts[k]) in DigitIds(ts)
    ensures |DigitIds(ts)| == |ts| <==> forall k :: 0 <= k < |ts| ==> IsDigits(ts[k])
  {
    if ts != [] {
      var front := ts[..|ts| - 1];
      DigitIdsComplete(front);
      assert forall k :: 0 <= k < |ts| - 1 ==> ts[k] == front[k];
    }
  }

  /** Every id tried comes from an all-digit token: the other tokens are skipped. */
  lemma {:induction false} DigitIdsSound(ts: seq<string>)
    ensures forall id :: id in DigitIds(ts) ==> exists k :: 0 <= k < |ts| && IsDigits(ts[k]) && ParseNat(ts[k]) == id
  {
    if ts != [] {
      var front, last := ts[..|ts| - 1], ts[|ts| - 1];
      DigitIdsSound(front);
      forall id | id in DigitIds(ts)
        ensures exists k :: 0 <= k < |ts| && IsDigits(ts[k]) && ParseNat(ts[k]) == id
      {
        if id in DigitIds(front) {
          var k :| 0 <= k < |front| && IsDigits(front[k]) && ParseNat(front[k]) == id;
          assert ts[k] == front[k];
        } else {
          assert IsDigits(ts[|ts| - 1]) && ParseNat(ts[|ts| - 1]) == id;
        }
      }
    }
  }

  /** The ban calls for `ids`. */
  function Bans(ids: seq<Id>): (es: seq<Effect>)
    ensures |es| == |ids|
  {
    if ids == [] then [] else Bans(ids[..|ids| - 1]) + [Ban(ids[|ids| - 1])]
  }

  /** The `k`-th ban call is for the `k`-th id. */
  lemma {:induction false} BansAt(ids: seq<Id>, k: nat)
    requires k < |ids|
    ensures Bans(ids)[k] == Ban(ids[k])
  {
    if k < |ids| - 1 {
      BansAt(ids[..|ids| - 1], k);
    }
  }

  /** How many of the bans of `ids` succeed. */
  function Banned(ids: seq<Id>, ok: Actuator): (n: nat)
    ensures n <= |ids|
  {
    if ids == [] then 0
    else Banned(ids[..|ids| - 1], ok) + (if ok(Ban(ids[|ids| - 1])) then 1 else 0)
  }

  /** All bans are counted exactly when all succeed, and none exactly when none does. */
  lemma {:induction false} BannedExtremes(ids: seq<Id>, ok: Actuator)
    ensures Banned(ids, ok) == |ids| <==> forall k :: 0 <= k < |ids| ==> ok(Ban(ids[k]))
    ensures Banned(ids, ok) == 0 <==> forall k :: 0 <= k < |ids| ==> !ok(Ban(ids[k]))
  {
    if ids != [] {
      var front := ids[..|ids| - 1];
      BannedExtremes(front, ok);
      assert forall k :: 0 <= k < |ids| - 1 ==> ids[k] == front[k];
    }
  }

  lemma DigitIdsSnoc(ts: seq<string>, t: string)
    ensures DigitIds(ts + [t]) == DigitIds(ts) + if IsDigits(t) then [ParseNat(t)] else []
  {
    assert (ts + [t])[..|ts|] == ts;
  }

  lemma BansSnoc(ids: seq<Id>, id: Id)
    ensures Bans(ids + [id]) == Bans(ids) + [Ban(id)]
  {
    assert (ids + [id])[..|ids|] == ids;
  }

  lemma BannedSnoc(ids: seq<Id>, id: Id, ok: Actuator)
    ensures Banned(ids + [id], ok) == Banned(ids, ok) + if ok(Ban(id)) then 1 else 0
  {
    assert (ids + [id])[..|ids|] == ids;
  }

  /** One more token adds its ban, and its success, exactly when it is all digits. */
  lemma MassbanStep(ts: seq<string>, t: string, ok: Actuator)
    ensures Bans(DigitIds(ts + [t])) == Bans(DigitIds(ts)) + if IsDigits(t) then [Ban(ParseNat(t))] else []
    ensures Banned(DigitIds(ts + [t]), ok)
         == Banned(DigitIds(ts), ok) + if IsDigits(t) && ok(Ban(ParseNat(t))) then 1 else 0
  {
    DigitIdsSnoc(ts, t);
    if IsDigits(t) {
      BansSnoc(DigitIds(ts), ParseNat(t));
      BannedSnoc(DigitIds(ts), ParseNat(t), ok);
    } else {
      assert DigitIds(ts + [t]) == DigitIds(ts);
    }
  }

  /** The ban loop of `massban`: one ban per all-digit token, in order, each failure ignored. */
  method BanEach(ts: seq<string>, ok: Actuator) returns (count: nat, trace: seq<Effect>)
    ensures trace == Bans(DigitIds(ts))
    ensures count == Banned(DigitIds(ts), ok)
  {
    count := 0;
    trace := [];
    var i := 0;
    while i < |ts|
      invariant 0 <= i <= |ts|
      invariant trace == Bans(DigitIds(ts[..i]))
      invariant count == Banned(DigitIds(ts[..i]), ok)
    {
      TakeSnoc(ts, i);
      MassbanStep(ts[..i], ts[i], ok);
      if IsDigits(ts[i]) {
        var uid := ParseNat(ts[i]);
        trace := trace + [Ban(uid)];
        if ok(Ban(uid)) {
          count := count + 1;
        }
      }
      i := i + 1;
    }
    assert ts[..i] == ts;
  }

  /** `massban`: ban every all-digit token, each failure ignored, then report how many went through. */
  method Massban(input: string, ok: Actuator) returns (count: nat, trace: seq<Effect>)
    ensures trace == Bans(DigitIds(Tokens(input))) + [Reply(Massbanned(count))]
    ensures count == Banned(DigitIds(Tokens(input)), ok)
    // only successful bans are counted, so at most one per all-digit token
    ensures count <= |DigitIds(Tokens(input))| <= |Tokens(input)|
  {
    count, trace := BanEach(Tokens(input), ok);
    trace := trace + [Reply(Massbanned(count))];
  }

  // ---------------------------------------------------------------------------
  // toggles

  function LowerChar(c: char): char
  {
    if 'A' <= c <= 'Z' then (c as int + 32) as char else c
  }

  function UpperChar(c: char): char
  {
    if 'a' <= c <= 'z' then (c as int - 32) as char else c
  }

  /** `str.lower()` on the letters that decide a toggle. */
  function Lower(s: string): (r: string)
    ensures |r| == |s|
    ensures forall i :: 0 <= i < |s| ==> r[i] == LowerChar(s[i])
  {
    seq(|s|, i requires 0 <= i < |s| => LowerChar(s[i]))
  }

  function Upper(s: string): (r: string)
    ensures |r| == |s|
    ensures forall i :: 0 <= i < |s| ==> r[i] == UpperChar(s[i])
  {
    seq(|s|, i requires 0 <= i < |s| => UpperChar(s[i]))
  }

  /** The words that switch a toggle on; anything else switches it off. */
  const OnWords: seq<string> := ["on", "1", "true", "yes"]

  /** `toggle.lower() in ("on", "1", "true", "yes")`: on exactly when the text is one of the on
      words, in any mix of cases. */
  function ParseToggle(s: string): (on: bool)
    ensures on <==> exists k :: 0 <= k < |OnWords| && SameIgnoringCase(s, OnWords[k])
  {
    LowerMatches(s);
    Lower(s) in OnWords
  }

  /** Two texts equal letter for letter when case is ignored. */
  predicate SameIgnoringCase(a: string, b: string)
  {
    |a| == |b| && forall i :: 0 <= i < |a| ==> LowerChar(a[i]) == LowerChar(b[i])
  }

  /** A text matches an on word ignoring case exactly when its lower-case form is that word. */
  lemma LowerMatches(s: string)
    ensures forall k :: 0 <= k < |OnWords| ==> (SameIgnoringCase(s, OnWords[k]) <==> Lower(s) == OnWords[k])
  {
    forall k | 0 <= k < |OnWords|
      ensures SameIgnoringCase(s, OnWords[k]) <==> Lower(s) == OnWords[k]
    {
      assert Lower(OnWords[k]) == OnWords[k];
      if SameIgnoringCase(s, OnWords[k]) {
        assert Lower(s) == Lower(OnWords[k]);
      }
    }
  }

  /** Writing a toggle in capitals does not change it. */
  lemma ToggleUpper(s: string)
    ensures ParseToggle(Upper(s)) == ParseToggle(s)
  {
    assert Lower(Upper(s)) == Lower(s);
  }

  /** Surrounding whitespace is not stripped, and only the four words count. */
  lemma ToggleExamples()
    ensures ParseToggle("ON") && ParseToggle("Yes") && ParseToggle("1") && ParseToggle("TRUE")
    ensures !ParseToggle("off") && !ParseToggle(" on") && !ParseToggle("y") && !ParseToggle("")
  {
    assert Lower("ON") == "on";
    assert Lower("Yes") == "yes";
    assert Lower("1") == "1";
    assert Lower("TRUE") == "true";
    assert Lower("off") == "off";
    assert Lower(" on") == " on";
    assert Lower("y") == "y";
    assert Lower("") == "";
  }
}
