// What the parser of RspConfig.dfy makes of a line given as a list of words, and the laws of
// the words themselves: quoted names, decimal digits, signs.

module RspLines {
  import opened Streams
  import opened RspConfigs
  import opened PowersOfTwo

  // ---- Words -------------------------------------------------------------------

  // Space as isspace has it in the C locale: tab, the three line ends, carriage return, blank.
  predicate IsBlank(s: string) {
    forall i :: 0 <= i < |s| ==> s[i] as int == 32 || 9 <= s[i] as int <= 13
  }

  predicate IsPlain(s: string) {
    && s != "" && s[0] != '\"'
    && forall i :: 0 <= i < |s| ==> s[i] as int != 32 && !(9 <= s[i] as int <= 13)
  }

  // A name stands as it is if it is plain, and any name may be quoted.
  predicate IsName(text: string, value: string) {
    text == Quoted(value) || (text == value && IsPlain(value))
  }

  // A text that is read as x, whatever space is in front and behind.
  ghost predicate IsNumber(codec: Codec, text: string, x: Double) {
    forall gap: string, rest: string {:trigger codec.get(gap + (text + rest))} ::
      IsBlank(gap) && EndsWord(rest) ==> codec.get(gap + (text + rest)) == Got(x, rest)
  }

  // Words are set apart by space; there may be more at both ends.
  predicate IsSpread(words: seq<Word>, end: string) {
    && IsBlank(end)
    && forall i :: 0 <= i < |words| ==> IsBlank(words[i].gap) && (i > 0 ==> words[i].gap != "")
  }

  lemma {:induction false} BlankIsSkipped(gap: string, s: string)
    requires IsBlank(gap)
    ensures SkipSpace(gap + s) == SkipSpace(s)
  {
    if gap == "" {
      assert gap + s == s;
    } else {
      assert (gap + s)[1..] == gap[1..] + s;
      BlankIsSkipped(gap[1..], s);
    }
  }

  lemma {:induction false} WordIsRead(value: string, rest: string)
    requires (forall i :: 0 <= i < |value| ==> !IsSpace(value[i])) && EndsWord(rest)
    ensures GetWord(value + rest) == Got(value, rest)
  {
    if value == "" {
      assert value + rest == rest;
    } else {
      assert (value + rest)[1..] == value[1..] + rest;
      WordIsRead(value[1..], rest);
      assert value == [value[0]] + value[1..];
    }
  }

  lemma NameIsRead(gap: string, text: string, value: string, rest: string)
    requires IsBlank(gap) && IsName(text, value) && EndsWord(rest)
    ensures GetQuoted(gap + (text + rest)) == Got(value, rest)
  {
    hide GetBody, GetWord, Escape;
    BlankIsSkipped(gap, text + rest);
    if text == Quoted(value) {
      QuotedIsRead(value, rest);
    } else {
      assert SkipSpace(text + rest) == text + rest;
      WordIsRead(value, rest);
    }
  }

  lemma FlagIsRead(gap: string, b: bool, rest: string)
    requires IsBlank(gap) && EndsWord(rest)
    ensures GetBool(gap + ((if b then "1" else "0") + rest)) == Got(b, rest)
  {
    hide GetDigits, SkipSpace;
    var text := Bit(b) + rest;
    BlankIsSkipped(gap, text);
    BlankIsSkipped(" ", text);
    Assoc(" ", Bit(b), rest);
    BitIsRead(b, rest);
  }

  lemma CountIsRead(gap: string, n: nat, rest: string)
    requires IsBlank(gap) && EndsWord(rest)
    ensures GetSize(gap + (Digits(n) + rest)) == if n <= MAX_SIZE then Got(n, rest) else Fail
  {
    hide GetDigits, Digits;
    var text := Digits(n) + rest;
    DigitsAreRead(n, rest);
    BlankIsSkipped(gap, text);
    assert SkipSpace(text) == text;
  }

  // A space, or the end of the text, is behind every word.
  lemma NextEndsWord(words: seq<Word>, end: string)
    requires IsSpread(words, end) && words != []
    ensures IsSpread(words[1..], end) && EndsWord(Line(words[1..], end))
  {
    if |words| > 1 {
      assert Line(words[1..], end)[0] == words[1].gap[0];
    }
  }

  // ---- Lines -------------------------------------------------------------------

  // What the words of a line say.
  datatype Given = Given(serial: string, mode: string, antenna: string, rate: Double, bandwidth: Double, ppm: Double,
                         agc: bool, dc: bool, iq: bool, gains: seq<(string, Double)>, settings: seq<(string, string)>)

  ghost predicate AreNumbers(codec: Codec, words: seq<Word>, list: seq<(string, Double)>) {
    && |words| >= 2 * |list|
    && forall i :: 0 <= i < |list| ==> IsName(words[2 * i].text, list[i].0) && IsNumber(codec, words[2 * i + 1].text, list[i].1)
  }

  predicate AreNames(words: seq<Word>, list: seq<(string, string)>) {
    && |words| == 2 * |list|
    && forall i :: 0 <= i < |list| ==> IsName(words[2 * i].text, list[i].0) && IsName(words[2 * i + 1].text, list[i].1)
  }

  ghost predicate AreWords(codec: Codec, words: seq<Word>, g: Given) {
    var n := |g.gains|;
    && |words| == 11 + 2 * n + 2 * |g.settings|
    && IsName(words[0].text, g.serial) && IsName(words[1].text, g.mode) && IsName(words[2].text, g.antenna)
    && IsNumber(codec, words[3].text, g.rate) && IsNumber(codec, words[4].text, g.bandwidth) && IsNumber(codec, words[5].text, g.ppm)
    && words[6].text == (if g.agc then "1" else "0")
    && words[7].text == (if g.dc then "1" else "0")
    && words[8].text == (if g.iq then "1" else "0")
    && words[9].text == Digits(n) && AreNumbers(codec, words[10..], g.gains)
    && words[10 + 2 * n].text == Digits(|g.settings|) && AreNames(words[11 + 2 * n..], g.settings)
  }

  // The map of a list of entries, where a later entry replaces an earlier one.
  ghost predicate IsMapOf<V>(m: map<string, V>, list: seq<(string, V)>) {
    && (forall i :: 0 <= i < |list| ==> list[i].0 in m)
    && forall key :: key in m ==> exists i :: 0 <= i < |list| && IsLastEntry(list, i, key) && m[key] == list[i].1
  }

  ghost predicate IsLastEntry<V>(list: seq<(string, V)>, i: nat, key: string)
    requires i < |list|
  {
    list[i].0 == key && forall j :: i < j < |list| ==> list[j].0 != key
  }

  lemma NewestIsLast<V>(list: seq<(string, V)>, n: nat)
    requires n < |list|
    ensures IsLastEntry(list[..n + 1], n, list[n].0)
  {}

  lemma StillLast<V>(list: seq<(string, V)>, n: nat, i: nat, key: string)
    requires i < n < |list| && list[n].0 != key && IsLastEntry(list[..n], i, key)
    ensures IsLastEntry(list[..n + 1], i, key)
  {
    var shorter, longer := list[..n], list[..n + 1];
    forall j | i < j < |longer|
      ensures longer[j].0 != key
    {
      assert j < n ==> shorter[j] == longer[j];
    }
  }

  lemma OneMore<V>(m: map<string, V>, list: seq<(string, V)>, n: nat)
    requires n < |list| && IsMapOf(m, list[..n])
    ensures IsMapOf(m[list[n].0 := list[n].1], list[..n + 1])
  {
    hide IsLastEntry;
    var after, longer := m[list[n].0 := list[n].1], list[..n + 1];
    forall i | 0 <= i < |longer|
      ensures longer[i].0 in after
    {
      assert i < n ==> longer[i] == list[..n][i];
    }
    forall key | key in after
      ensures exists i :: 0 <= i < |longer| && IsLastEntry(longer, i, key) && after[key] == longer[i].1
    {
      if key == list[n].0 {
        NewestIsLast(list, n);
      } else {
        var shorter := list[..n];
        var i :| 0 <= i < |shorter| && IsLastEntry(shorter, i, key) && m[key] == shorter[i].1;
        StillLast(list, n, i, key);
        assert longer[i] == shorter[i];
      }
    }
  }

  // The first entry taken off.
  lemma NumbersBehind(codec: Codec, words: seq<Word>, list: seq<(string, Double)>)
    requires AreNumbers(codec, words, list) && list != []
    ensures AreNumbers(codec, words[2..], list[1..])
  {
    hide IsName, IsNumber;
    var rest, others := words[2..], list[1..];
    forall i | 0 <= i < |others|
      ensures IsName(rest[2 * i].text, others[i].0) && IsNumber(codec, rest[2 * i + 1].text, others[i].1)
    {
      assert others[i] == list[i + 1];
      assert rest[2 * i] == words[2 * (i + 1)] && rest[2 * i + 1] == words[2 * (i + 1) + 1];
    }
  }

  lemma NamesBehind(words: seq<Word>, list: seq<(string, string)>)
    requires AreNames(words, list) && list != []
    ensures AreNames(words[2..], list[1..])
  {
    hide IsName;
    var rest, others := words[2..], list[1..];
    forall i | 0 <= i < |others|
      ensures IsName(rest[2 * i].text, others[i].0) && IsName(rest[2 * i + 1].text, others[i].1)
    {
      assert others[i] == list[i + 1];
      assert rest[2 * i] == words[2 * (i + 1)] && rest[2 * i + 1] == words[2 * (i + 1) + 1];
    }
  }

  lemma {:induction false} GainWords(codec: Codec, words: seq<Word>, end: string, list: seq<(string, Double)>, n: nat, gains: map<string, Double>)
    requires n <= |list| && |words| >= 2 * (|list| - n) && IsSpread(words, end) && IsMapOf(gains, list[..n])
    requires AreNumbers(codec, words, list[n..])
    ensures var r := GetGains(codec, Line(words, end), |list| - n, gains);
            && (r.Got? <==> forall i :: n <= i < |list| ==> list[i].1.Finite?)
            && (r.Got? ==> r.rest == Line(words[2 * (|list| - n)..], end) && IsMapOf(r.value, list))
    decreases |list| - n
  {
    hide IsName, IsNumber, GetQuoted, IsMapOf;
    if n == |list| {
      assert list[..n] == list;
    } else {
      var key, x, rest := list[n].0, list[n].1, words[2..];
      assert list[n..][0] == list[n];
      TwoWords(words, end);
      NameIsRead(words[0].gap, words[0].text, key, Line(words[1..], end));
      NumberIsRead(codec, words[1].gap, words[1].text, x, Line(rest, end));
      if x.Finite? {
        OneMore(gains, list, n);
        assert AreNumbers(codec, rest, list[n + 1..]) by {
          NumbersBehind(codec, words, list[n..]);
          assert list[n..][1..] == list[n + 1..];
        }
        GainWords(codec, rest, end, list, n + 1, gains[key := x]);
        assert rest[2 * (|list| - n - 1)..] == words[2 * (|list| - n)..];
      }
    }
  }

  lemma TwoWords(words: seq<Word>, end: string)
    requires IsSpread(words, end) && |words| >= 2
    ensures Line(words, end) == words[0].gap + (words[0].text + Line(words[1..], end))
    ensures Line(words[1..], end) == words[1].gap + (words[1].text + Line(words[2..], end))
    ensures EndsWord(Line(words[1..], end)) && EndsWord(Line(words[2..], end)) && IsSpread(words[2..], end)
  {
    NextEndsWord(words, end);
    NextEndsWord(words[1..], end);
    assert words[1..][1..] == words[2..];
  }

  lemma NumberIsRead(codec: Codec, gap: string, text: string, x: Double, rest: string)
    requires IsNumber(codec, text, x) && IsBlank(gap) && EndsWord(rest)
    ensures codec.get(gap + (text + rest)) == Got(x, rest)
  {}

  lemma {:induction false} SettingWords(words: seq<Word>, end: string, list: seq<(string, string)>, n: nat, settings: map<string, string>)
    requires n <= |list| && IsSpread(words, end) && IsMapOf(settings, list[..n])
    requires AreNames(words, list[n..])
    ensures var r := GetSettings(Line(words, end), |list| - n, settings);
            r.Got? && r.rest == end && IsMapOf(r.value, list)
    decreases |list| - n
  {
    hide IsName, GetQuoted, IsMapOf;
    if n == |list| {
      assert list[..n] == list;
    } else {
      var key, value, rest := list[n].0, list[n].1, words[2..];
      assert list[n..][0] == list[n];
      TwoWords(words, end);
      NameIsRead(words[0].gap, words[0].text, key, Line(words[1..], end));
      NameIsRead(words[1].gap, words[1].text, value, Line(rest, end));
      OneMore(settings, list, n);
      assert AreNames(rest, list[n + 1..]) by {
        NamesBehind(words, list[n..]);
        assert list[n..][1..] == list[n + 1..];
      }
      SettingWords(rest, end, list, n + 1, settings[key := value]);
    }
  }

  lemma {:induction false} SpreadFrom(words: seq<Word>, end: string, n: nat)
    requires IsSpread(words, end) && n <= |words|
    ensures IsSpread(words[n..], end)
    ensures n > 0 ==> EndsWord(Line(words[n..], end))
    ensures n < |words| ==> Line(words[n..], end) == words[n].gap + (words[n].text + Line(words[n + 1..], end)) && IsBlank(words[n].gap)
  {
    if n < |words| {
      assert words[n..][1..] == words[n + 1..];
      if n > 0 {
        assert Line(words[n..], end)[0] == words[n].gap[0];
      }
    }
  }

  lemma NameWords(words: seq<Word>, end: string, names: Names)
    requires IsSpread(words, end) && |words| > 3
    requires IsName(words[0].text, names.serial) && IsName(words[1].text, names.mode) && IsName(words[2].text, names.antenna)
    ensures GetNames(Line(words, end)) == Got(names, Line(words[3..], end))
  {
    hide IsName, GetQuoted, IsSpread, IsBlank, EndsWord, Line;
    SpreadFrom(words, end, 1);
    SpreadFrom(words, end, 2);
    SpreadFrom(words, end, 3);
    SpreadFrom(words, end, 0);
    assert words[0..] == words;
    NameIsRead(words[0].gap, words[0].text, names.serial, Line(words[1..], end));
    NameIsRead(words[1].gap, words[1].text, names.mode, Line(words[2..], end));
    NameIsRead(words[2].gap, words[2].text, names.antenna, Line(words[3..], end));
  }

  lemma NumberWords(codec: Codec, words: seq<Word>, end: string, numbers: Numbers)
    requires IsSpread(words, end) && |words| > 3
    requires IsNumber(codec, words[0].text, numbers.rate) && IsNumber(codec, words[1].text, numbers.bandwidth)
    requires IsNumber(codec, words[2].text, numbers.ppm)
    ensures GetNumbers(codec, Line(words, end)) == Got(numbers, Line(words[3..], end))
  {
    hide IsNumber, IsSpread, IsBlank, EndsWord, Line;
    SpreadFrom(words, end, 1);
    SpreadFrom(words, end, 2);
    SpreadFrom(words, end, 3);
    SpreadFrom(words, end, 0);
    assert words[0..] == words;
    NumberIsRead(codec, words[0].gap, words[0].text, numbers.rate, Line(words[1..], end));
    NumberIsRead(codec, words[1].gap, words[1].text, numbers.bandwidth, Line(words[2..], end));
    NumberIsRead(codec, words[2].gap, words[2].text, numbers.ppm, Line(words[3..], end));
  }

  lemma FlagWords(words: seq<Word>, end: string, flags: Flags)
    requires IsSpread(words, end) && |words| > 3
    requires words[0].text == (if flags.agc then "1" else "0")
    requires words[1].text == (if flags.dc then "1" else "0")
    requires words[2].text == (if flags.iq then "1" else "0")
    ensures GetFlags(Line(words, end)) == Got(flags, Line(words[3..], end))
  {
    hide GetBool, IsSpread, IsBlank, EndsWord, Line;
    SpreadFrom(words, end, 1);
    SpreadFrom(words, end, 2);
    SpreadFrom(words, end, 3);
    SpreadFrom(words, end, 0);
    assert words[0..] == words;
    FlagIsRead(words[0].gap, flags.agc, Line(words[1..], end));
    FlagIsRead(words[1].gap, flags.dc, Line(words[2..], end));
    FlagIsRead(words[2].gap, flags.iq, Line(words[3..], end));
  }

  // The first nine words.
  lemma HeadIsRead(codec: Codec, words: seq<Word>, end: string, g: Given)
    requires IsSpread(words, end) && AreWords(codec, words, g)
    ensures GetNames(Line(words, end)) == Got(Names(g.serial, g.mode, g.antenna), Line(words[3..], end))
    ensures GetNumbers(codec, Line(words[3..], end)) == Got(Numbers(g.rate, g.bandwidth, g.ppm), Line(words[6..], end))
    ensures GetFlags(Line(words[6..], end)) == Got(Flags(g.agc, g.dc, g.iq), Line(words[9..], end))
  {
    hide GetNames, GetNumbers, GetFlags, IsName, IsNumber, IsSpread, Line, AreNumbers, AreNames, Digits;
    SpreadFrom(words, end, 3);
    SpreadFrom(words, end, 6);
    assert words[3..][3..] == words[6..] && words[6..][3..] == words[9..];
    NameWords(words, end, Names(g.serial, g.mode, g.antenna));
    NumberWords(codec, words[3..], end, Numbers(g.rate, g.bandwidth, g.ppm));
    FlagWords(words[6..], end, Flags(g.agc, g.dc, g.iq));
  }

  // All the entries of a map.
  lemma AllGains(codec: Codec, words: seq<Word>, end: string, list: seq<(string, Double)>)
    requires IsSpread(words, end) && AreNumbers(codec, words, list)
    ensures var r := GetGains(codec, Line(words, end), |list|, map[]);
            && (r.Got? <==> forall i :: 0 <= i < |list| ==> list[i].1.Finite?)
            && (r.Got? ==> r.rest == Line(words[2 * |list|..], end) && IsMapOf(r.value, list))
  {
    hide IsName, IsNumber, Line, GetGains, IsSpread, IsMapOf;
    EmptyMap(list);
    assert list[0..] == list;
    GainWords(codec, words, end, list, 0, map[]);
  }

  lemma AllSettings(words: seq<Word>, end: string, list: seq<(string, string)>)
    requires IsSpread(words, end) && AreNames(words, list)
    ensures var r := GetSettings(Line(words, end), |list|, map[]);
            r.Got? && IsMapOf(r.value, list) && SkipSpace(r.rest) == ""
  {
    hide IsName, Line, GetSettings, IsSpread, IsMapOf, SkipSpace;
    EmptyMap(list);
    assert list[0..] == list;
    SettingWords(words, end, list, 0, map[]);
    EndIsBlank(words, end);
  }

  // What a line says of its two maps.
  lemma MapsOf(codec: Codec, words: seq<Word>, g: Given)
    requires AreWords(codec, words, g)
    ensures var k := 10 + 2 * |g.gains|;
            && k < |words| && words[9].text == Digits(|g.gains|) && AreNumbers(codec, words[10..], g.gains)
            && words[k].text == Digits(|g.settings|) && AreNames(words[k + 1..], g.settings)
  {
    hide IsName, IsNumber, Digits, AreNumbers, AreNames;
  }

  // The size of each map and its entries.
  ghost predicate GainsAreAt(codec: Codec, words: seq<Word>, end: string, list: seq<(string, Double)>)
    requires |words| >= 10 + 2 * |list|
  {
    && GetSize(Line(words[9..], end)) == (if |list| <= MAX_SIZE then Got(|list|, Line(words[10..], end)) else Fail)
    && var r := GetGains(codec, Line(words[10..], end), |list|, map[]);
       && (r.Got? <==> forall i :: 0 <= i < |list| ==> list[i].1.Finite?)
       && (r.Got? ==> r.rest == Line(words[10 + 2 * |list|..], end) && IsMapOf(r.value, list))
  }

  lemma GainPart(codec: Codec, words: seq<Word>, end: string, g: Given)
    requires IsSpread(words, end) && AreWords(codec, words, g)
    ensures |words| >= 10 + 2 * |g.gains| && GainsAreAt(codec, words, end, g.gains)
  {
    hide IsName, IsNumber, Line, IsSpread, IsBlank, EndsWord, GetSize, Digits, GetGains, AreNumbers, AreNames, IsMapOf, AreWords;
    var n := |g.gains|;
    MapsOf(codec, words, g);
    SpreadFrom(words, end, 9);
    SpreadFrom(words, end, 10);
    CountIsRead(words[9].gap, n, Line(words[10..], end));
    AllGains(codec, words[10..], end, g.gains);
    assert words[10..][2 * n..] == words[10 + 2 * n..];
  }

  ghost predicate SettingsAreAt(words: seq<Word>, k: nat, end: string, list: seq<(string, string)>)
    requires k < |words|
  {
    && GetSize(Line(words[k..], end)) == (if |list| <= MAX_SIZE then Got(|list|, Line(words[k + 1..], end)) else Fail)
    && var r := GetSettings(Line(words[k + 1..], end), |list|, map[]);
       r.Got? && IsMapOf(r.value, list) && SkipSpace(r.rest) == ""
  }

  lemma SettingPart(codec: Codec, words: seq<Word>, end: string, g: Given, k: nat)
    requires IsSpread(words, end) && AreWords(codec, words, g) && k == 10 + 2 * |g.gains|
    ensures k < |words| && SettingsAreAt(words, k, end, g.settings)
  {
    hide IsName, IsNumber, Line, IsSpread, IsBlank, EndsWord, GetSize, Digits, GetSettings, AreNumbers, AreNames, IsMapOf, SkipSpace, AreWords;
    MapsOf(codec, words, g);
    SpreadFrom(words, end, k);
    SpreadFrom(words, end, k + 1);
    CountIsRead(words[k].gap, |g.settings|, Line(words[k + 1..], end));
    AllSettings(words[k + 1..], end, g.settings);
  }

  lemma EndIsBlank(words: seq<Word>, end: string)
    requires IsSpread(words, end)
    ensures SkipSpace(end) == ""
  {
    BlankIsSkipped(end, "");
    assert end + "" == end;
  }

  lemma MapWords(codec: Codec, words: seq<Word>, end: string, g: Given)
    requires IsSpread(words, end) && AreWords(codec, words, g)
    ensures var r := GetMaps(codec, Line(words[9..], end));
            && (r.Got? <==> |g.gains| <= 128 && |g.settings| <= 128 && forall i :: 0 <= i < |g.gains| ==> g.gains[i].1.Finite?)
            && (r.Got? ==> IsMapOf(r.value.0, g.gains) && IsMapOf(r.value.1, g.settings))
  {
    hide Line, GetSize, GetGains, GetSettings, IsMapOf, IsSpread, IsBlank, EndsWord, SkipSpace, AreWords;
    GainPart(codec, words, end, g);
    SettingPart(codec, words, end, g, 10 + 2 * |g.gains|);
  }

  lemma EmptyMap<V>(list: seq<(string, V)>)
    ensures IsMapOf(map[], list[..0])
  {}

  // Every word ends up in its own field, whatever space there is between the words, and the line
  // is accepted exactly within the limits.
  lemma LineIsRead(codec: Codec, words: seq<Word>, end: string, g: Given)
    requires IsSpread(words, end) && AreWords(codec, words, g)
    ensures Parsed(codec, Line(words, end)).Got? <==>
              && (g.mode == "ST" || g.mode == "MA" || g.mode == "MA8" || g.mode == "SL")
              && g.rate.Finite? && g.rate.value > 0.0 && g.bandwidth.Finite? && g.bandwidth.value >= 0.0
              && g.ppm.Finite? && -200.0 <= g.ppm.value <= 200.0
              && |g.gains| <= 128 && |g.settings| <= 128 && forall i :: 0 <= i < |g.gains| ==> g.gains[i].1.Finite?
    ensures var r := Parsed(codec, Line(words, end));
            r.Got? ==>
              && r.value.serial == g.serial && r.value.mode == g.mode && r.value.antenna == g.antenna
              && r.value.rate == g.rate && r.value.bandwidth == g.bandwidth && r.value.ppm == g.ppm
              && r.value.agc == g.agc && r.value.dc == g.dc && r.value.iq == g.iq
              && IsMapOf(r.value.gains, g.gains) && IsMapOf(r.value.settings, g.settings)
  {
    hide GetNames, GetNumbers, GetFlags, GetMaps, IsMapOf, AreWords, IsSpread, Line;
    HeadIsRead(codec, words, end, g);
    MapWords(codec, words, end, g);
  }

  // ---- The words themselves ----------------------------------------------------

  // A string is escaped character by character.
  lemma {:induction false} EscapeSplits(s: string, t: string)
    ensures Escape(s + t) == Escape(s) + Escape(t)
  {
    hide Escaped;
    if s == "" {
      assert s + t == t;
    } else {
      EscapeSplits(s[1..], t);
      assert (s + t)[1..] == s[1..] + t && (s + t)[0] == s[0];
      EscapeFirst(s);
      EscapeFirst(s + t);
      hide Escape;
      Assoc(Escaped(s[0]), Escape(s[1..]), Escape(t));
    }
  }

  lemma EscapeFirst(s: string)
    requires s != ""
    ensures Escape(s) == Escaped(s[0]) + Escape(s[1..])
  {}

  // A backslash goes in front of every quote and every backslash, and nothing else changes.
  lemma EscapeCharacter(c: char)
    ensures Escape([c]) == if c as int == 34 || c as int == 92 then [92 as char, c] else [c]
  {
    EscapeFirst([c]);
    assert [c][1..] == "";
  }

  function Pow10(i: nat): (p: nat)
    ensures p > 0
  {
    if i == 0 then 1 else 10 * Pow10(i - 1)
  }

  // The digit i places from the end is that of 10^i, and there is no zero in front.
  lemma {:induction false} DigitsAreDecimal(n: nat, i: nat)
    requires i < |Digits(n)|
    ensures Digits(n)[|Digits(n)| - 1 - i] as int == 48 + n / Pow10(i) % 10
    ensures n > 0 ==> Digits(n)[0] != '0'
    ensures n < Pow10(|Digits(n)|)
  {
    if n >= 10 {
      DigitsAreDecimal(n / 10, if i == 0 then 0 else i - 1);
      if i > 0 {
        DivTwice(n, Pow10(i - 1));
      }
    }
  }

  lemma DivTwice(n: nat, p: nat)
    requires p > 0
    ensures n / (10 * p) == n / 10 / p
  {
    var h, d := n / 10, 10 * p;
    var q, r := h / p, h % p;
    assert h == q * p + r;
    assert q * d == 10 * (q * p);
    DivModUnique(n, d, q, 10 * r + n % 10);
  }

  // A size is read modulo 2^64 behind a minus sign, and a flag may be signed, but not minus one.
  lemma SignsAreRead(n: nat, rest: string)
    requires EndsWord(rest)
    ensures var text := Digits(n) + rest;
            && GetSize("+" + text) == GetSize(text) == (if n < 0x1_0000_0000_0000_0000 then Got(n, rest) else Fail)
            && GetSize("-" + text) == (if 0 < n < 0x1_0000_0000_0000_0000 then Got(0x1_0000_0000_0000_0000 - n, rest)
                                       else if n == 0 then Got(0, rest) else Fail)
            && GetBool("+" + text) == GetBool(text) == (if n <= 1 then Got(n == 1, rest) else Fail)
            && GetBool("-" + text) == (if n == 0 then Got(false, rest) else Fail)
  {
    hide GetDigits, Digits;
    var text := Digits(n) + rest;
    DigitsAreRead(n, rest);
    assert ("+" + text)[1..] == text && ("-" + text)[1..] == text;
    assert SkipSpace(text) == text && SkipSpace("+" + text) == "+" + text && SkipSpace("-" + text) == "-" + text;
  }
}
