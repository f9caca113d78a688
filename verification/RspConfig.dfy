// The configuration line of src/sdr/sdrplay_source.cpp, lines 23-53: its printer, its parser,
// and the stream they work on. How a double is printed with 17 digits and read back is a
// parameter, with the one law that makes 17 digits enough.

module Streams {

  datatype Result<+T> = Fail | Got(value: T, rest: string)

  predicate IsSpace(c: char) {
    c == ' ' || '\t' <= c <= '\r'
  }

  predicate IsDigit(c: char) {
    '0' <= c <= '9'
  }

  // Reading a number stops here.
  predicate EndsWord(s: string) {
    s == "" || IsSpace(s[0])
  }

  function SkipSpace(s: string): (r: string)
    ensures |r| <= |s| && (r == "" || !IsSpace(r[0]))
  {
    if s == "" || !IsSpace(s[0]) then s else SkipSpace(s[1..])
  }

  // ---- Quoted strings ----------------------------------------------------------

  function Escape(s: string): string {
    if s == "" then ""
    else (if s[0] == '\"' || s[0] == '\\' then "\\" else "") + [s[0]] + Escape(s[1..])
  }

  function Quoted(s: string): string {
    "\"" + Escape(s) + "\""
  }

  function Prepend(c: char, r: Result<string>): Result<string> {
    if r.Fail? then Fail else Got([c] + r.value, r.rest)
  }

  // Behind the opening quote: a backslash takes the next character as it is.
  function GetBody(s: string): Result<string>
    decreases |s|
  {
    if s == "" then Fail
    else if s[0] == '\\' then (if |s| == 1 then Fail else Prepend(s[1], GetBody(s[2..])))
    else if s[0] == '\"' then Got("", s[1..])
    else Prepend(s[0], GetBody(s[1..]))
  }

  function GetWord(s: string): Result<string> {
    if EndsWord(s) then Got("", s) else Prepend(s[0], GetWord(s[1..]))
  }

  // std::quoted: without a quote in front it is a plain word.
  function GetQuoted(s: string): Result<string> {
    var t := SkipSpace(s);
    if t == "" then Fail else if t[0] == '\"' then GetBody(t[1..]) else GetWord(t)
  }

  lemma Assoc(a: string, b: string, c: string)
    ensures a + b + c == a + (b + c)
  {}

  function Escaped(c: char): string {
    if c == '\"' || c == '\\' then ['\\', c] else [c]
  }

  lemma EscapeOne(s: string, rest: string)
    requires s != ""
    ensures Escape(s) + "\"" + rest == Escaped(s[0]) + (Escape(s[1..]) + "\"" + rest)
  {
    var e := Escape(s[1..]);
    assert Escape(s) == Escaped(s[0]) + e;
    hide Escape, Escaped;
    Assoc(Escaped(s[0]), e, "\"");
    Assoc(Escaped(s[0]), e + "\"", rest);
  }

  lemma GetOne(c: char, after: string)
    ensures GetBody(Escaped(c) + after) == Prepend(c, GetBody(after))
  {
    assert (['\\', c] + after)[2..] == after && ([c] + after)[1..] == after;
  }

  lemma GetNothing(rest: string)
    ensures GetBody("\"" + rest) == Got("", rest)
  {
    assert ("\"" + rest)[1..] == rest;
  }

  lemma {:induction false} UnescapeUndoesEscape(s: string, rest: string)
    ensures GetBody(Escape(s) + "\"" + rest) == Got(s, rest)
  {
    hide GetBody, Escaped;
    if s == "" {
      assert Escape(s) + "\"" + rest == "\"" + rest;
      GetNothing(rest);
    } else {
      var c, after := s[0], Escape(s[1..]) + "\"" + rest;
      UnescapeUndoesEscape(s[1..], rest);
      assert s == [c] + s[1..];
      GetOne(c, after);
      EscapeOne(s, rest);
    }
  }

  // Whatever is in the string, quotes, backslashes, spaces.
  lemma QuotedIsRead(s: string, rest: string)
    ensures GetQuoted(" " + Quoted(s) + rest) == GetQuoted(Quoted(s) + rest) == Got(s, rest)
  {
    hide GetBody, Escape;
    var text := Quoted(s) + rest;
    assert text[0] == '\"' && text[1..] == Escape(s) + "\"" + rest;
    UnescapeUndoesEscape(s, rest);
    assert (" " + Quoted(s) + rest)[1..] == text;
    assert SkipSpace(text) == text;
    assert SkipSpace(" " + Quoted(s) + rest) == SkipSpace(text);
  }

  // ---- Whole numbers -----------------------------------------------------------

  const MAX_SIZE := 0xFFFF_FFFF_FFFF_FFFF

  function Digit(d: nat): char
    requires d < 10
  {
    '0' + d as char
  }

  function Digits(n: nat): string {
    if n < 10 then [Digit(n)] else Digits(n / 10) + [Digit(n % 10)]
  }

  function DigitValue(c: char): nat
    requires IsDigit(c)
  {
    c as int - '0' as int
  }

  // The digits in front, behind what was read so far.
  function GetDigits(s: string, soFar: nat): (r: Result<nat>)
    ensures r.Got?
  {
    if s == "" || !IsDigit(s[0]) then Got(soFar, s) else GetDigits(s[1..], soFar * 10 + DigitValue(s[0]))
  }

  // An unsigned 64-bit extraction: a minus sign wraps, a value that does not fit fails.
  function GetSize(s: string): Result<nat> {
    var t := SkipSpace(s);
    var negative := t != "" && t[0] == '-';
    var u := if negative || (t != "" && t[0] == '+') then t[1..] else t;
    if u == "" || !IsDigit(u[0]) then Fail
    else
      var n := GetDigits(u, 0);
      if n.value > MAX_SIZE then Fail else Got(if negative && n.value > 0 then MAX_SIZE + 1 - n.value else n.value, n.rest)
  }

  // A bool without names: 0 or 1, read as a signed number.
  function GetBool(s: string): Result<bool> {
    var t := SkipSpace(s);
    var negative := t != "" && t[0] == '-';
    var u := if negative || (t != "" && t[0] == '+') then t[1..] else t;
    if u == "" || !IsDigit(u[0]) then Fail
    else
      var n := GetDigits(u, 0);
      if n.value == 0 then Got(false, n.rest) else if n.value == 1 && !negative then Got(true, n.rest) else Fail
  }

  lemma DigitsAreRead(n: nat, s: string)
    requires s == "" || !IsDigit(s[0])
    ensures GetDigits(Digits(n) + s, 0) == Got(n, s)
    ensures Digits(n) != "" && IsDigit(Digits(n)[0])
  {
    ReadOn(n, s);
  }

  // Reading goes on behind the digits of n with n read.
  lemma {:induction false} ReadOn(n: nat, s: string)
    ensures GetDigits(Digits(n) + s, 0) == GetDigits(s, n)
    ensures Digits(n) != "" && IsDigit(Digits(n)[0])
  {
    if n < 10 {
      assert (Digits(n) + s)[1..] == s;
    } else {
      ReadOn(n / 10, [Digit(n % 10)] + s);
      assert Digits(n) + s == Digits(n / 10) + ([Digit(n % 10)] + s);
      assert ([Digit(n % 10)] + s)[1..] == s;
      assert n / 10 * 10 + n % 10 == n;
    }
  }

  lemma SizeIsRead(n: nat, rest: string)
    requires n <= MAX_SIZE && EndsWord(rest)
    ensures GetSize(" " + Digits(n) + rest) == Got(n, rest)
  {
    hide Digits, GetDigits;
    DigitsAreRead(n, rest);
    var text := Digits(n) + rest;
    assert (" " + Digits(n) + rest)[1..] == text;
    assert SkipSpace(text) == text;
    assert SkipSpace(" " + Digits(n) + rest) == SkipSpace(text);
  }

  function Bit(b: bool): string {
    if b then "1" else "0"
  }

  lemma BitIsRead(b: bool, rest: string)
    requires EndsWord(rest)
    ensures GetBool(" " + Bit(b) + rest) == Got(b, rest)
  {
    var text := Bit(b) + rest;
    assert (" " + Bit(b) + rest)[1..] == text;
    assert SkipSpace(text) == text;
    assert SkipSpace(" " + Bit(b) + rest) == SkipSpace(text);
    assert text[1..] == rest;
    assert GetDigits(text, 0) == GetDigits(rest, if b then 1 else 0);
  }

  // ---- A line as a list of words -----------------------------------------------

  // A word of a line and the space in front of it.
  datatype Word = Word(gap: string, text: string)

  function Line(words: seq<Word>, end: string): string {
    if words == [] then end else words[0].gap + (words[0].text + Line(words[1..], end))
  }

  lemma {:induction false} LineAppend(a: seq<Word>, b: seq<Word>, end: string)
    ensures Line(a + b, end) == Line(a, Line(b, end))
  {
    if a == [] {
      assert a + b == b;
    } else {
      LineAppend(a[1..], b, end);
      assert (a + b)[1..] == a[1..] + b;
    }
  }

  // ---- Doubles -----------------------------------------------------------------

  datatype Double = Finite(value: real) | NotFinite

  // The reals that are doubles, how they are printed, and how they are read.
  datatype Codec = Codec(isDouble: real -> bool, show: Double -> string, get: string -> Result<Double>)

  // Seventeen digits give the same double back.
  ghost predicate IsExact(codec: Codec) {
    forall x: real, rest: string {:trigger codec.get(" " + codec.show(Finite(x)) + rest)} ::
      codec.isDouble(x) && EndsWord(rest) ==> codec.get(" " + codec.show(Finite(x)) + rest) == Got(Finite(x), rest)
  }
}

module RspConfigs {
  import opened Streams

  datatype RspConfig = RspConfig(serial: string, mode: string, antenna: string, rate: Double, bandwidth: Double, ppm: Double,
                                 agc: bool, dc: bool, iq: bool, gains: map<string, Double>, settings: map<string, string>)

  const MAX_ENTRIES := 128

  predicate IsMode(mode: string) {
    mode == "ST" || mode == "MA" || mode == "MA8" || mode == "SL"
  }

  // Lines 37-39.
  predicate AreInRange(rate: Double, bandwidth: Double, ppm: Double) {
    && rate.Finite? && rate.value > 0.0 && bandwidth.Finite? && bandwidth.value >= 0.0
    && ppm.Finite? && -200.0 <= ppm.value <= 200.0
  }

  // What the parser accepts.
  predicate IsValid(c: RspConfig) {
    && IsMode(c.mode) && AreInRange(c.rate, c.bandwidth, c.ppm)
    && |c.gains| <= MAX_ENTRIES && |c.settings| <= MAX_ENTRIES
    && forall key :: key in c.gains ==> c.gains[key].Finite?
  }

  // Every number of the configuration is a double.
  predicate HasDoubles(codec: Codec, c: RspConfig) {
    && IsDouble(codec, c.rate) && IsDouble(codec, c.bandwidth) && IsDouble(codec, c.ppm)
    && forall key :: key in c.gains ==> IsDouble(codec, c.gains[key])
  }

  predicate IsDouble(codec: Codec, x: Double) {
    x.Finite? ==> codec.isDouble(x.value)
  }

  // The keys of a map, each once. A std::map lists them in order of their characters; nothing
  // here depends on the order.
  ghost predicate IsListing<V>(keys: seq<string>, m: map<string, V>) {
    && (forall key :: key in keys <==> key in m)
    && forall i, j :: 0 <= i < j < |keys| ==> keys[i] != keys[j]
  }

  // ---- Printing ----------------------------------------------------------------

  function GainText(codec: Codec, gains: map<string, Double>, keys: seq<string>): string
    requires forall key :: key in keys ==> key in gains
  {
    if keys == [] then "" else " " + Quoted(keys[0]) + " " + codec.show(gains[keys[0]]) + GainText(codec, gains, keys[1..])
  }

  function SettingText(settings: map<string, string>, keys: seq<string>): string
    requires forall key :: key in keys ==> key in settings
  {
    if keys == [] then "" else " " + Quoted(keys[0]) + " " + Quoted(settings[keys[0]]) + SettingText(settings, keys[1..])
  }

  function NameText(c: RspConfig, tail: string): string {
    Quoted(c.serial) + (" " + Quoted(c.mode) + (" " + Quoted(c.antenna) + tail))
  }

  function NumberText(codec: Codec, c: RspConfig, tail: string): string {
    " " + codec.show(c.rate) + (" " + codec.show(c.bandwidth) + (" " + codec.show(c.ppm) + tail))
  }

  function FlagText(c: RspConfig, tail: string): string {
    " " + Bit(c.agc) + (" " + Bit(c.dc) + (" " + Bit(c.iq) + tail))
  }

  // The line for a listing of both maps.
  function Serialized(codec: Codec, c: RspConfig, gainKeys: seq<string>, settingKeys: seq<string>): string
    requires forall key :: key in gainKeys ==> key in c.gains
    requires forall key :: key in settingKeys ==> key in c.settings
  {
    NameText(c, NumberText(codec, c, FlagText(c,
      " " + Digits(|gainKeys|) + (GainText(codec, c.gains, gainKeys) +
        (" " + Digits(|settingKeys|) + SettingText(c.settings, settingKeys))))))
  }

  // ---- Parsing -----------------------------------------------------------------

  datatype Names = Names(serial: string, mode: string, antenna: string)
  datatype Numbers = Numbers(rate: Double, bandwidth: Double, ppm: Double)
  datatype Flags = Flags(agc: bool, dc: bool, iq: bool)

  function GetNames(s: string): Result<Names> {
    var a := GetQuoted(s);
    if a.Fail? then Fail else
    var b := GetQuoted(a.rest);
    if b.Fail? then Fail else
    var c := GetQuoted(b.rest);
    if c.Fail? then Fail else Got(Names(a.value, b.value, c.value), c.rest)
  }

  function GetNumbers(codec: Codec, s: string): Result<Numbers> {
    var a := codec.get(s);
    if a.Fail? then Fail else
    var b := codec.get(a.rest);
    if b.Fail? then Fail else
    var c := codec.get(b.rest);
    if c.Fail? then Fail else Got(Numbers(a.value, b.value, c.value), c.rest)
  }

  function GetFlags(s: string): Result<Flags> {
    var a := GetBool(s);
    if a.Fail? then Fail else
    var b := GetBool(a.rest);
    if b.Fail? then Fail else
    var c := GetBool(b.rest);
    if c.Fail? then Fail else Got(Flags(a.value, b.value, c.value), c.rest)
  }

  function GetGains(codec: Codec, s: string, n: nat, gains: map<string, Double>): Result<map<string, Double>>
    decreases n
  {
    if n == 0 then Got(gains, s) else
    var key := GetQuoted(s);
    if key.Fail? then Fail else
    var value := codec.get(key.rest);
    if value.Fail? || !value.value.Finite? then Fail else
    GetGains(codec, value.rest, n - 1, gains[key.value := value.value])
  }

  function GetSettings(s: string, n: nat, settings: map<string, string>): Result<map<string, string>>
    decreases n
  {
    if n == 0 then Got(settings, s) else
    var key := GetQuoted(s);
    if key.Fail? then Fail else
    var value := GetQuoted(key.rest);
    if value.Fail? then Fail else
    GetSettings(value.rest, n - 1, settings[key.value := value.value])
  }

  // Both maps, each behind its size, and nothing but space behind them.
  function GetMaps(codec: Codec, s: string): Result<(map<string, Double>, map<string, string>)> {
    var n := GetSize(s);
    if n.Fail? || n.value > MAX_ENTRIES then Fail else
    var gains := GetGains(codec, n.rest, n.value, map[]);
    if gains.Fail? then Fail else
    var m := GetSize(gains.rest);
    if m.Fail? || m.value > MAX_ENTRIES then Fail else
    var settings := GetSettings(m.rest, m.value, map[]);
    if settings.Fail? || SkipSpace(settings.rest) != "" then Fail else Got((gains.value, settings.value), settings.rest)
  }

  // What the text says, if it is a configuration.
  function Parsed(codec: Codec, s: string): Result<RspConfig> {
    var names := GetNames(s);
    if names.Fail? then Fail else
    var numbers := GetNumbers(codec, names.rest);
    if numbers.Fail? then Fail else
    var flags := GetFlags(numbers.rest);
    if flags.Fail? then Fail else
    if !AreInRange(numbers.value.rate, numbers.value.bandwidth, numbers.value.ppm) || !IsMode(names.value.mode) then Fail else
    var maps := GetMaps(codec, flags.rest);
    if maps.Fail? then Fail else
    Got(RspConfig(names.value.serial, names.value.mode, names.value.antenna,
                  numbers.value.rate, numbers.value.bandwidth, numbers.value.ppm,
                  flags.value.agc, flags.value.dc, flags.value.iq, maps.value.0, maps.value.1), maps.rest)
  }

  // ---- The round trip ----------------------------------------------------------

  lemma NamesAreRead(c: RspConfig, tail: string)
    ensures GetNames(NameText(c, tail)) == Got(Names(c.serial, c.mode, c.antenna), tail)
  {
    hide GetQuoted, Quoted;
    QuotedIsRead(c.serial, " " + Quoted(c.mode) + (" " + Quoted(c.antenna) + tail));
    QuotedIsRead(c.mode, " " + Quoted(c.antenna) + tail);
    QuotedIsRead(c.antenna, tail);
  }

  lemma NumbersAreRead(codec: Codec, c: RspConfig, tail: string)
    requires IsExact(codec) && HasDoubles(codec, c) && c.rate.Finite? && c.bandwidth.Finite? && c.ppm.Finite? && EndsWord(tail)
    ensures GetNumbers(codec, NumberText(codec, c, tail)) == Got(Numbers(c.rate, c.bandwidth, c.ppm), tail)
  {
    DoubleIsRead(codec, c.rate, " " + codec.show(c.bandwidth) + (" " + codec.show(c.ppm) + tail));
    DoubleIsRead(codec, c.bandwidth, " " + codec.show(c.ppm) + tail);
    DoubleIsRead(codec, c.ppm, tail);
  }

  lemma DoubleIsRead(codec: Codec, x: Double, rest: string)
    requires IsExact(codec) && x.Finite? && IsDouble(codec, x) && EndsWord(rest)
    ensures codec.get(" " + codec.show(x) + rest) == Got(x, rest)
  {}

  lemma FlagsAreRead(c: RspConfig, tail: string)
    requires EndsWord(tail)
    ensures GetFlags(FlagText(c, tail)) == Got(Flags(c.agc, c.dc, c.iq), tail)
  {
    hide GetBool, Bit;
    BitIsRead(c.agc, " " + Bit(c.dc) + (" " + Bit(c.iq) + tail));
    BitIsRead(c.dc, " " + Bit(c.iq) + tail);
    BitIsRead(c.iq, tail);
  }

  // The first n keys of a listing with their values.
  function Part<V>(m: map<string, V>, keys: seq<string>): map<string, V> {
    map key | key in keys && key in m :: m[key]
  }

  lemma {:induction false} GainsAreRead(codec: Codec, gains: map<string, Double>, keys: seq<string>, n: nat, tail: string)
    requires IsExact(codec) && EndsWord(tail) && n <= |keys|
    requires forall key :: key in keys ==> key in gains && gains[key].Finite? && IsDouble(codec, gains[key])
    ensures GetGains(codec, GainText(codec, gains, keys[n..]) + tail, |keys| - n, Part(gains, keys[..n]))
         == Got(Part(gains, keys), tail)
    decreases |keys| - n
  {
    hide GetQuoted, Quoted;
    if n == |keys| {
      assert keys[..n] == keys;
      assert GainText(codec, gains, keys[n..]) + tail == tail;
    } else {
      var key, rest := keys[n], GainText(codec, gains, keys[n + 1..]) + tail;
      assert keys[n..][1..] == keys[n + 1..];
      assert key in keys;
      assert GainText(codec, gains, keys[n..]) + tail == " " + Quoted(key) + (" " + codec.show(gains[key]) + rest);
      QuotedIsRead(key, " " + codec.show(gains[key]) + rest);
      assert EndsWord(rest);
      DoubleIsRead(codec, gains[key], rest);
      assert Part(gains, keys[..n])[key := gains[key]] == Part(gains, keys[..n + 1]);
      GainsAreRead(codec, gains, keys, n + 1, tail);
    }
  }

  lemma {:induction false} SettingsAreRead(settings: map<string, string>, keys: seq<string>, n: nat)
    requires n <= |keys| && forall key :: key in keys ==> key in settings
    ensures GetSettings(SettingText(settings, keys[n..]), |keys| - n, Part(settings, keys[..n])) == Got(Part(settings, keys), "")
    decreases |keys| - n
  {
    hide GetQuoted, Quoted;
    if n == |keys| {
      assert keys[..n] == keys;
    } else {
      var key, rest := keys[n], SettingText(settings, keys[n + 1..]);
      assert keys[n..][1..] == keys[n + 1..];
      assert key in keys;
      assert SettingText(settings, keys[n..]) == " " + Quoted(key) + (" " + Quoted(settings[key]) + rest);
      QuotedIsRead(key, " " + Quoted(settings[key]) + rest);
      QuotedIsRead(settings[key], rest);
      assert Part(settings, keys[..n])[key := settings[key]] == Part(settings, keys[..n + 1]);
      SettingsAreRead(settings, keys, n + 1);
    }
  }

  lemma {:induction false} ListingSize<V>(keys: seq<string>, m: map<string, V>)
    requires IsListing(keys, m)
    ensures |keys| == |m| && Part(m, keys) == m
  {
    KeyCount(keys);
    assert (set key | key in keys) == m.Keys;
    assert |m.Keys| == |m|;
  }

  lemma {:induction false} KeyCount(keys: seq<string>)
    requires forall i, j :: 0 <= i < j < |keys| ==> keys[i] != keys[j]
    ensures |set key | key in keys| == |keys|
  {
    if keys != [] {
      var last := |keys| - 1;
      KeyCount(keys[..last]);
      assert (set key | key in keys) == (set key | key in keys[..last]) + {keys[last]};
    }
  }

  lemma MapsAreRead(codec: Codec, c: RspConfig, gainKeys: seq<string>, settingKeys: seq<string>)
    requires IsExact(codec) && HasDoubles(codec, c) && IsValid(c)
    requires IsListing(gainKeys, c.gains) && IsListing(settingKeys, c.settings)
    ensures GetMaps(codec, " " + Digits(|gainKeys|) + (GainText(codec, c.gains, gainKeys) +
                (" " + Digits(|settingKeys|) + SettingText(c.settings, settingKeys)))) == Got((c.gains, c.settings), "")
  {
    hide GetSize, Digits, Quoted, GetQuoted, GetGains, GetSettings, IsExact, GainText, SettingText;
    ListingSize(gainKeys, c.gains);
    ListingSize(settingKeys, c.settings);
    var settingText := SettingText(c.settings, settingKeys);
    var tail := " " + Digits(|settingKeys|) + settingText;
    var text := GainText(codec, c.gains, gainKeys) + tail;
    AllGainsAreRead(codec, c.gains, gainKeys, tail);
    AllSettingsAreRead(c.settings, settingKeys);
    SizeIsRead(|gainKeys|, text);
    SizeIsRead(|settingKeys|, settingText);
    assert SkipSpace("") == "";
    assert GetSize(" " + Digits(|gainKeys|) + text) == Got(|gainKeys|, text);
  }

  lemma AllGainsAreRead(codec: Codec, gains: map<string, Double>, keys: seq<string>, tail: string)
    requires IsExact(codec) && EndsWord(tail) && IsListing(keys, gains)
    requires forall key :: key in gains ==> gains[key].Finite? && IsDouble(codec, gains[key])
    ensures GetGains(codec, GainText(codec, gains, keys) + tail, |keys|, map[]) == Got(gains, tail)
    ensures EndsWord(GainText(codec, gains, keys) + tail)
  {
    hide GetGains, IsExact, Quoted;
    ListingSize(keys, gains);
    assert keys[0..] == keys && Part(gains, keys[..0]) == map[];
    GainsAreRead(codec, gains, keys, 0, tail);
  }

  lemma AllSettingsAreRead(settings: map<string, string>, keys: seq<string>)
    requires IsListing(keys, settings)
    ensures GetSettings(SettingText(settings, keys), |keys|, map[]) == Got(settings, "")
    ensures EndsWord(SettingText(settings, keys))
  {
    hide GetSettings, Quoted;
    ListingSize(keys, settings);
    assert keys[0..] == keys && Part(settings, keys[..0]) == map[];
    SettingsAreRead(settings, keys, 0);
  }

  lemma ParsedIsValid(codec: Codec, s: string)
    ensures Parsed(codec, s).Got? ==> IsValid(Parsed(codec, s).value)
    ensures Parsed(codec, s).Got? ==>
              var c := Parsed(codec, s).value;
              && (c.mode == "ST" || c.mode == "MA" || c.mode == "MA8" || c.mode == "SL")
              && c.rate.Finite? && c.rate.value > 0.0 && c.bandwidth.Finite? && c.bandwidth.value >= 0.0
              && c.ppm.Finite? && -200.0 <= c.ppm.value <= 200.0 && |c.gains| <= 128 && |c.settings| <= 128
              && forall key :: key in c.gains ==> c.gains[key].Finite?
  {
    hide GetNames, GetNumbers, GetFlags;
    var r := Parsed(codec, s);
    if r.Got? {
      var at := GetFlags(GetNumbers(codec, GetNames(s).rest).rest).rest;
      var n := GetSize(at);
      GainsAreFinite(codec, n.rest, n.value, map[]);
      var gains := GetGains(codec, n.rest, n.value, map[]);
      var m := GetSize(gains.rest);
      SettingsAreFew(m.rest, m.value, map[]);
    }
  }

  lemma {:induction false} GainsAreFinite(codec: Codec, s: string, n: nat, gains: map<string, Double>)
    requires forall key :: key in gains ==> gains[key].Finite?
    ensures var r := GetGains(codec, s, n, gains);
      r.Got? ==> |r.value| <= |gains| + n && forall key :: key in r.value ==> r.value[key].Finite?
    decreases n
  {
    hide GetQuoted;
    if n > 0 {
      var key := GetQuoted(s);
      if key.Got? {
        var value := codec.get(key.rest);
        if value.Got? && value.value.Finite? {
          AddedKey(gains, key.value, value.value);
          GainsAreFinite(codec, value.rest, n - 1, gains[key.value := value.value]);
        }
      }
    }
  }

  lemma {:induction false} SettingsAreFew(s: string, n: nat, settings: map<string, string>)
    ensures var r := GetSettings(s, n, settings); r.Got? ==> |r.value| <= |settings| + n
    decreases n
  {
    hide GetQuoted;
    if n > 0 {
      var key := GetQuoted(s);
      if key.Got? {
        var value := GetQuoted(key.rest);
        if value.Got? {
          AddedKey(settings, key.value, value.value);
          SettingsAreFew(value.rest, n - 1, settings[key.value := value.value]);
        }
      }
    }
  }

  lemma AddedKey<V>(m: map<string, V>, key: string, value: V)
    ensures |m[key := value]| <= |m| + 1
  {
    assert m[key := value].Keys == m.Keys + {key};
    assert |m[key := value]| == |m[key := value].Keys|;
    assert |m| == |m.Keys|;
  }

  // A configuration comes back from its line exactly when it is valid.
  lemma RoundTrip(codec: Codec, c: RspConfig, gainKeys: seq<string>, settingKeys: seq<string>)
    requires IsExact(codec) && HasDoubles(codec, c)
    requires IsListing(gainKeys, c.gains) && IsListing(settingKeys, c.settings)
    ensures Parsed(codec, Serialized(codec, c, gainKeys, settingKeys)) == Got(c, "") <==> IsValid(c)
  {
    hide GetMaps, GetNames, GetNumbers, GetFlags, IsExact;
    ParsedIsValid(codec, Serialized(codec, c, gainKeys, settingKeys));
    if IsValid(c) {
      var maps := " " + Digits(|gainKeys|) + (GainText(codec, c.gains, gainKeys) +
                    (" " + Digits(|settingKeys|) + SettingText(c.settings, settingKeys)));
      NamesAreRead(c, NumberText(codec, c, FlagText(c, maps)));
      NumbersAreRead(codec, c, FlagText(c, maps));
      FlagsAreRead(c, maps);
      MapsAreRead(codec, c, gainKeys, settingKeys);
    }
  }

  // ---- The two functions as they run -------------------------------------------

  lemma NameTail(c: RspConfig, tail: string)
    ensures NameText(c, tail) == NameText(c, "") + tail
  {
    hide Quoted;
    var x, y, z := Quoted(c.serial), " " + Quoted(c.mode), " " + Quoted(c.antenna);
    Assoc(x, y + z, tail);
    Assoc(y, z, tail);
    assert z + "" == z;
  }

  lemma NumberTail(codec: Codec, c: RspConfig, tail: string)
    ensures NumberText(codec, c, tail) == NumberText(codec, c, "") + tail
  {
    var x, y, z := " " + codec.show(c.rate), " " + codec.show(c.bandwidth), " " + codec.show(c.ppm);
    Assoc(x, y + z, tail);
    Assoc(y, z, tail);
    assert z + "" == z;
  }

  lemma FlagTail(c: RspConfig, tail: string)
    ensures FlagText(c, tail) == FlagText(c, "") + tail
  {
    hide Bit;
    var x, y, z := " " + Bit(c.agc), " " + Bit(c.dc), " " + Bit(c.iq);
    Assoc(x, y + z, tail);
    Assoc(y, z, tail);
    assert z + "" == z;
  }

  // Appending from the left gives the same text as nesting from the right.
  lemma Regroup(a: string, b: string, c: string, d: string, e: string, f: string, g: string)
    ensures a + b + c + d + e + f + g == a + (b + (c + (d + (e + (f + g)))))
  {
    Assoc(a + b + c + d + e, f, g);
    Assoc(a + b + c + d, e, f + g);
    Assoc(a + b + c, d, e + (f + g));
    Assoc(a + b, c, d + (e + (f + g)));
    Assoc(a, b, c + (d + (e + (f + g))));
  }

  // The words of the line, a blank between them.
  function HeadWords(codec: Codec, c: RspConfig): seq<Word> {
    [Word("", Quoted(c.serial)), Word(" ", Quoted(c.mode)), Word(" ", Quoted(c.antenna)),
     Word(" ", codec.show(c.rate)), Word(" ", codec.show(c.bandwidth)), Word(" ", codec.show(c.ppm)),
     Word(" ", if c.agc then "1" else "0"), Word(" ", if c.dc then "1" else "0"), Word(" ", if c.iq then "1" else "0"),
     Word(" ", Digits(|c.gains|))]
  }

  function GainWords(codec: Codec, gains: map<string, Double>, keys: seq<string>): seq<Word>
    requires forall key :: key in keys ==> key in gains
  {
    seq(2 * |keys|, i requires 0 <= i < 2 * |keys| =>
      Word(" ", if i % 2 == 0 then Quoted(keys[i / 2]) else assert keys[i / 2] in keys; codec.show(gains[keys[i / 2]])))
  }

  function SettingWords(settings: map<string, string>, keys: seq<string>): seq<Word>
    requires forall key :: key in keys ==> key in settings
  {
    seq(2 * |keys|, i requires 0 <= i < 2 * |keys| =>
      Word(" ", Quoted(if i % 2 == 0 then keys[i / 2] else assert keys[i / 2] in keys; settings[keys[i / 2]])))
  }

  lemma {:induction false} GainsAreWords(codec: Codec, gains: map<string, Double>, keys: seq<string>, end: string)
    requires forall key :: key in keys ==> key in gains
    ensures GainText(codec, gains, keys) + end == Line(GainWords(codec, gains, keys), end)
  {
    hide Quoted;
    if keys != [] {
      var words, key := GainWords(codec, gains, keys), keys[0];
      assert words[2..] == GainWords(codec, gains, keys[1..]);
      GainsAreWords(codec, gains, keys[1..], end);
      TwoInFront(words, end);
      Assoc(" " + Quoted(key) + " " + codec.show(gains[key]), GainText(codec, gains, keys[1..]), end);
    }
  }

  lemma {:induction false} SettingsAreWords(settings: map<string, string>, keys: seq<string>, end: string)
    requires forall key :: key in keys ==> key in settings
    ensures SettingText(settings, keys) + end == Line(SettingWords(settings, keys), end)
  {
    hide Quoted;
    if keys != [] {
      var words, key := SettingWords(settings, keys), keys[0];
      assert words[2..] == SettingWords(settings, keys[1..]);
      SettingsAreWords(settings, keys[1..], end);
      TwoInFront(words, end);
      Assoc(" " + Quoted(key) + " " + Quoted(settings[key]), SettingText(settings, keys[1..]), end);
    }
  }

  lemma TwoInFront(words: seq<Word>, end: string)
    requires |words| >= 2
    ensures Line(words, end) == words[0].gap + words[0].text + words[1].gap + words[1].text + Line(words[2..], end)
  {
    hide Line;
    var x, y := words[0].gap + words[0].text, words[1].gap + words[1].text;
    LineStep(words, end);
    LineStep(words[1..], end);
    assert words[1..][1..] == words[2..];
    Assoc(x, words[1].gap, words[1].text);
    Assoc(x, y, Line(words[2..], end));
    Assoc(words[0].gap, words[0].text, Line(words[1..], end));
    Assoc(words[1].gap, words[1].text, Line(words[2..], end));
  }

  lemma LineStep(words: seq<Word>, end: string)
    requires words != []
    ensures Line(words, end) == words[0].gap + (words[0].text + Line(words[1..], end))
  {}

  // Three words in front, as the text functions nest them.
  lemma ThreeInFront(a: Word, b: Word, c: Word, words: seq<Word>, end: string)
    ensures Line([a, b, c] + words, end) == a.gap + a.text + (b.gap + b.text + (c.gap + c.text + Line(words, end)))
  {
    hide Line;
    var all := [a, b, c] + words;
    LineStep(all, end);
    LineStep(all[1..], end);
    LineStep(all[2..], end);
    assert all[1..][1..] == all[2..] && all[2..][1..] == words;
    Assoc(c.gap, c.text, Line(words, end));
    Assoc(b.gap, b.text, Line(all[2..], end));
    Assoc(a.gap, a.text, Line(all[1..], end));
  }

  lemma HeadIsWords(codec: Codec, c: RspConfig, end: string)
    ensures NameText(c, NumberText(codec, c, FlagText(c, " " + Digits(|c.gains|) + end))) == Line(HeadWords(codec, c), end)
  {
    hide Quoted, Digits, Line;
    var words := HeadWords(codec, c);
    var last := words[9..];
    LineStep(last, end);
    LineEnd(end);
    assert last[1..] == [];
    Assoc(" ", Digits(|c.gains|), end);
    ThreeInFront(words[6], words[7], words[8], last, end);
    assert [words[6], words[7], words[8]] + last == words[6..];
    ThreeInFront(words[3], words[4], words[5], words[6..], end);
    assert [words[3], words[4], words[5]] + words[6..] == words[3..];
    ThreeInFront(words[0], words[1], words[2], words[3..], end);
    assert [words[0], words[1], words[2]] + words[3..] == words;
    assert "" + Quoted(c.serial) == Quoted(c.serial);
  }

  lemma LineEnd(end: string)
    ensures Line([], end) == end
  {}

  // The nested text is the line of those words.
  lemma TextIsLine(codec: Codec, c: RspConfig, gainKeys: seq<string>, settingKeys: seq<string>)
    requires IsListing(gainKeys, c.gains) && IsListing(settingKeys, c.settings)
    ensures Serialized(codec, c, gainKeys, settingKeys) ==
            Line(HeadWords(codec, c) + GainWords(codec, c.gains, gainKeys) +
                 [Word(" ", Digits(|c.settings|))] + SettingWords(c.settings, settingKeys), "")
  {
    hide NameText, NumberText, FlagText, GainText, SettingText, HeadWords, GainWords, SettingWords, Digits, Line;
    ListingSize(gainKeys, c.gains);
    ListingSize(settingKeys, c.settings);
    var head, gains, size, settings :=
      HeadWords(codec, c), GainWords(codec, c.gains, gainKeys), [Word(" ", Digits(|c.settings|))], SettingWords(c.settings, settingKeys);
    var rest := Line(size + settings, "");
    LineStep(size + settings, "");
    assert (size + settings)[1..] == settings;
    SettingsAreWords(c.settings, settingKeys, "");
    assert SettingText(c.settings, settingKeys) + "" == SettingText(c.settings, settingKeys);
    Assoc(" ", Digits(|c.settings|), SettingText(c.settings, settingKeys));
    GainsAreWords(codec, c.gains, gainKeys, rest);
    HeadIsWords(codec, c, Line(gains, rest));
    LineAppend(gains, size + settings, "");
    LineAppend(head, gains + (size + settings), "");
    assert head + gains + size + settings == head + (gains + (size + settings));
  }

  // Lines 23-32.
  method SerializeRspConfig(codec: Codec, c: RspConfig, gainKeys: seq<string>, settingKeys: seq<string>) returns (out: string)
    requires IsListing(gainKeys, c.gains) && IsListing(settingKeys, c.settings)
    ensures out == Serialized(codec, c, gainKeys, settingKeys)
    ensures out == Line(HeadWords(codec, c) + GainWords(codec, c.gains, gainKeys) +
                        [Word(" ", Digits(|c.settings|))] + SettingWords(c.settings, settingKeys), "")
  {
    hide NameText, NumberText, FlagText, Digits, GainText, SettingText, IsListing;
    var names, numbers, flags := NameText(c, ""), NumberText(codec, c, ""), FlagText(c, "");
    ListingSize(gainKeys, c.gains);
    ListingSize(settingKeys, c.settings);
    var gainSize, settingSize := " " + Digits(|c.gains|), " " + Digits(|c.settings|);
    out := names + numbers + flags + gainSize;
    out := PutGains(codec, c.gains, gainKeys, out);
    out := out + settingSize;
    out := PutSettings(c.settings, settingKeys, out);
    ghost var gainText, settingText := GainText(codec, c.gains, gainKeys), SettingText(c.settings, settingKeys);
    Regroup(names, numbers, flags, gainSize, gainText, settingSize, settingText);
    ghost var maps := gainSize + (gainText + (settingSize + settingText));
    NameTail(c, NumberText(codec, c, FlagText(c, maps)));
    NumberTail(codec, c, FlagText(c, maps));
    FlagTail(c, maps);
    TextIsLine(codec, c, gainKeys, settingKeys);
  }

  // Line 28.
  method PutGains(codec: Codec, gains: map<string, Double>, keys: seq<string>, head: string) returns (out: string)
    requires IsListing(keys, gains)
    ensures forall key :: key in keys ==> key in gains
    ensures out == head + GainText(codec, gains, keys)
  {
    hide Quoted;
    out := head;
    var n := 0;
    assert keys[0..] == keys;
    while n < |keys|
      invariant 0 <= n <= |keys| && out + GainText(codec, gains, keys[n..]) == head + GainText(codec, gains, keys)
    {
      assert keys[n] in keys && keys[n..][1..] == keys[n + 1..];
      var entry := " " + Quoted(keys[n]) + " " + codec.show(gains[keys[n]]);
      Assoc(out, entry, GainText(codec, gains, keys[n + 1..]));
      out := out + entry;
      n := n + 1;
    }
  }

  // Line 30.
  method PutSettings(settings: map<string, string>, keys: seq<string>, head: string) returns (out: string)
    requires IsListing(keys, settings)
    ensures forall key :: key in keys ==> key in settings
    ensures out == head + SettingText(settings, keys)
  {
    hide Quoted;
    out := head;
    var n := 0;
    assert keys[0..] == keys;
    while n < |keys|
      invariant 0 <= n <= |keys| && out + SettingText(settings, keys[n..]) == head + SettingText(settings, keys)
    {
      assert keys[n] in keys && keys[n..][1..] == keys[n + 1..];
      var entry := " " + Quoted(keys[n]) + " " + Quoted(settings[keys[n]]);
      Assoc(out, entry, SettingText(settings, keys[n + 1..]));
      out := out + entry;
      n := n + 1;
    }
  }

  // A string stream that fails once and for all.
  class InputStream {
    var rest: string
    var failed: bool

    constructor (text: string)
      ensures rest == text && !failed
    {
      rest, failed := text, false;
    }

    method Quoted() returns (value: string)
      modifies this
      ensures failed == (old(failed) || GetQuoted(old(rest)).Fail?)
      ensures !failed ==> GetQuoted(old(rest)) == Got(value, rest)
    {
      var r := GetQuoted(rest);
      if failed || r.Fail? {
        failed, value := true, "";
      } else {
        rest, value := r.rest, r.value;
      }
    }

    method Number(codec: Codec) returns (value: Double)
      modifies this
      ensures failed == (old(failed) || codec.get(old(rest)).Fail?)
      ensures !failed ==> codec.get(old(rest)) == Got(value, rest)
    {
      var r := codec.get(rest);
      if failed || r.Fail? {
        failed, value := true, NotFinite;
      } else {
        rest, value := r.rest, r.value;
      }
    }

    method Flag() returns (value: bool)
      modifies this
      ensures failed == (old(failed) || GetBool(old(rest)).Fail?)
      ensures !failed ==> GetBool(old(rest)) == Got(value, rest)
    {
      var r := GetBool(rest);
      if failed || r.Fail? {
        failed, value := true, false;
      } else {
        rest, value := r.rest, r.value;
      }
    }

    method Size() returns (value: nat)
      modifies this
      ensures failed == (old(failed) || GetSize(old(rest)).Fail?)
      ensures !failed ==> GetSize(old(rest)) == Got(value, rest)
    {
      var r := GetSize(rest);
      if failed || r.Fail? {
        failed, value := true, 0;
      } else {
        rest, value := r.rest, r.value;
      }
    }
  }

  class Settings {
    var config: RspConfig

    constructor (config: RspConfig)
      ensures this.config == config
    {
      this.config := config;
    }

    // Lines 33-53. Whatever fails, the configuration is written last or not at all.
    method ParseRspConfig(codec: Codec, text: string) returns (ok: bool)
      modifies this
      ensures ok == Parsed(codec, text).Got?
      ensures config == if ok then Parsed(codec, text).value else old(config)
    {
      hide GetMaps, GetQuoted, GetBool;
      var stream := new InputStream(text);
      var serial := stream.Quoted();
      var mode := stream.Quoted();
      var antenna := stream.Quoted();
      var rate := stream.Number(codec);
      var bandwidth := stream.Number(codec);
      var ppm := stream.Number(codec);
      var agc := stream.Flag();
      var dc := stream.Flag();
      var iq := stream.Flag();
      if stream.failed {
        return false;
      }
      var c := RspConfig(serial, mode, antenna, rate, bandwidth, ppm, agc, dc, iq, map[], map[]);
      var inRange := AreInRange(rate, bandwidth, ppm) && IsMode(mode);
      ghost var behind := stream.rest;
      var gains, settings: map<string, string>;
      ok, gains, settings := ParseMaps(codec, stream, inRange);
      if ok {
        config := c.(gains := gains, settings := settings);
      }
    }
  }

  // The counts, the loops over both maps, and the end of the text. The range checks stand
  // behind the first count.
  method ParseMaps(codec: Codec, stream: InputStream, inRange: bool)
      returns (ok: bool, gains: map<string, Double>, settings: map<string, string>)
    requires !stream.failed
    modifies stream
    ensures ok == (inRange && GetMaps(codec, old(stream.rest)).Got?)
    ensures ok ==> GetMaps(codec, old(stream.rest)).value == (gains, settings)
  {
    hide GetQuoted, GetSize;
    ok, gains, settings := false, map[], map[];
    var count := stream.Size();
    if stream.failed || count > MAX_ENTRIES || !inRange {
      return;
    }
    var i := 0;
    ghost var all := GetGains(codec, stream.rest, count, map[]);
    while i < count
      invariant 0 <= i <= count && !stream.failed && all == GetGains(codec, stream.rest, count - i, gains)
    {
      var key := stream.Quoted();
      var value := stream.Number(codec);
      if stream.failed || value == NotFinite {
        return;
      }
      gains := gains[key := value];
      i := i + 1;
    }
    count := stream.Size();
    if stream.failed || count > MAX_ENTRIES {
      return;
    }
    i := 0;
    ghost var rest := GetSettings(stream.rest, count, map[]);
    while i < count
      invariant 0 <= i <= count && !stream.failed && rest == GetSettings(stream.rest, count - i, settings)
    {
      var key := stream.Quoted();
      var value := stream.Quoted();
      if stream.failed {
        return;
      }
      settings := settings[key := value];
      i := i + 1;
    }
    ok := SkipSpace(stream.rest) == "";
  }
}
