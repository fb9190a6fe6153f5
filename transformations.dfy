/**
 * The query-string to Cloudinary transformation compiler: every query entry
 * must be a known transformation (`width` or `height`) with an integer value
 * in range, and each becomes one Cloudinary token (`w_N`, `h_N`); the tokens
 * are joined with commas. The first bad entry makes the whole call fail.
 */
module Transformations {
  import opened Wrappers
  import opened JsNumber
  import opened Text
  import opened Folds
  import opened Query

  const MinWidth: int := 1
  const MaxWidth: int := 10000
  const MinHeight: int := 1
  const MaxHeight: int := 10000

  /** `castAndValidateInt`: `value` is an integer only when `parseInt` reads a safe integer and `Number` agrees with it. */
  function CastAndValidateInt(value: string, errorPrefix: string): (r: Result<int, string>)
    ensures r.Ok? ==> ParseInt(value) == Some(r.value) && IsSafeInteger(r.value)
    ensures r.Err? ==> r.error == IntegerMessage(errorPrefix)
  {
    match ParseInt(value)
    case None => Err(IntegerMessage(errorPrefix))
    case Some(integer) =>
      if !IsSafeInteger(integer) || !Denotes(StringToNumber(value), integer) then
        Err(IntegerMessage(errorPrefix))
      else
        Ok(integer)
  }

  /** The message of the error `castAndValidateInt` throws. */
  function IntegerMessage(errorPrefix: string): (r: string) {
    errorPrefix + " must be an integer"
  }

  /** A run of decimal digits, padded with white space, is accepted as its value when that value is safe (so `007` is 7). */
  lemma CastAcceptsDigitRun(w1: string, d: string, w2: string, errorPrefix: string)
    requires forall i | 0 <= i < |w1| :: IsWhiteSpace(w1[i])
    requires forall i | 0 <= i < |w2| :: IsWhiteSpace(w2[i])
    requires d != [] && AllDigits(d)
    ensures CastAndValidateInt(w1 + d + w2, errorPrefix) ==
              if DigitsValue(d) <= MaxSafeInteger then Ok(DigitsValue(d) as int) else Err(IntegerMessage(errorPrefix))
  {
    assert w2 == [] || !IsDigit(w2[0]);
    ParseIntOfDigits(w1, d, w2);
    NumberOfDigits(w1, d, w2);
  }

  /** The canonical numeral of every safe natural number is accepted as that number. */
  lemma CastAcceptsCanonical(n: nat, errorPrefix: string)
    requires n <= MaxSafeInteger
    ensures CastAndValidateInt(IntToString(n), errorPrefix) == Ok(n as int)
  {
    var d := NatToString(n);
    assert [] + d + [] == d;
    CastAcceptsDigitRun([], d, [], errorPrefix);
  }

  /** `castAndValidateInt` in terms of what `parseInt` and `Number` make of the value. */
  lemma CastFrom(value: string, n: int, x: Number, errorPrefix: string)
    requires ParseInt(value) == Some(n) && StringToNumber(value) == x
    ensures CastAndValidateInt(value, errorPrefix) ==
              if IsSafeInteger(n) && Denotes(x, n) then Ok(n) else Err(IntegerMessage(errorPrefix))
  {
  }

  /** A decimal fraction is accepted only when its fractional digits are all zero (`5.0` is 5, `1.5` is rejected). */
  lemma CastOfFraction(d: string, f: string, errorPrefix: string)
    requires d != [] && AllDigits(d) && AllDigits(f)
    ensures CastAndValidateInt(d + "." + f, errorPrefix) ==
              if DigitsValue(d) <= MaxSafeInteger && DigitsValue(f) == 0 then Ok(DigitsValue(d) as int)
              else Err(IntegerMessage(errorPrefix))
  {
    var s := d + "." + f;
    assert s == [] + d + ("." + f);
    ParseIntOfDigits([], d, "." + f);
    NumberOfFraction(d, f);
    DenotesFraction(d, f);
    CastFrom(s, DigitsValue(d), Finite(false, DigitsValue(d + f), -|f|), errorPrefix);
  }

  /** The value of `d.f` is an integer exactly when the digits `f` are all zero, and then it is the value of `d`. */
  lemma DenotesFraction(d: string, f: string)
    requires AllDigits(d) && AllDigits(f)
    ensures AllDigits(d + f)
    ensures Denotes(Finite(false, DigitsValue(d + f), -|f|), DigitsValue(d)) <==> DigitsValue(f) == 0
  {
    DigitsValueConcat(d, f);
    if |f| == 0 {
      assert d + f == d;
    }
  }

  /** A numeral with an exponent is accepted only when the exponent is 0 or the mantissa is 0 (`1e3` is rejected). */
  lemma CastOfExponent(d: string, k: string, errorPrefix: string)
    requires d != [] && AllDigits(d) && k != [] && AllDigits(k)
    ensures CastAndValidateInt(d + "e" + k, errorPrefix) ==
              if DigitsValue(d) <= MaxSafeInteger && (DigitsValue(d) == 0 || DigitsValue(k) == 0) then Ok(DigitsValue(d) as int)
              else Err(IntegerMessage(errorPrefix))
  {
    var s := d + "e" + k;
    assert s == [] + d + ("e" + k);
    ParseIntOfDigits([], d, "e" + k);
    NumberOfExponent(d, k);
    DenotesExponent(DigitsValue(d), DigitsValue(k));
    CastFrom(s, DigitsValue(d), Finite(false, DigitsValue(d), DigitsValue(k)), errorPrefix);
  }

  /** m * 10^k equals m exactly when m or k is 0. */
  lemma DenotesExponent(m: nat, k: nat)
    ensures Denotes(Finite(false, m, k), m) <==> m == 0 || k == 0
  {
    if k > 0 {
      Pow10Grows(k);
    }
  }

  /** 10^k exceeds 1 for every positive k. */
  lemma Pow10Grows(k: nat)
    requires k > 0
    ensures Pow10(k) >= 10
  {
  }

  /** Digits followed by anything that is not white space and does not continue a number are rejected (`12abc`). */
  lemma CastRejectsJunk(d: string, c: char, rest: string, errorPrefix: string)
    requires d != [] && AllDigits(d)
    requires !IsDigit(c) && !IsWhiteSpace(c) && c != '.' && c != 'e' && c != 'E' && PrefixRadix(c) == 0
    ensures CastAndValidateInt(d + [c] + rest, errorPrefix) == Err(IntegerMessage(errorPrefix))
  {
    NumberOfTrailingJunk(d, c, rest);
  }

  /** A value without any digit where `parseInt` looks for one, such as the empty string, `abc`, `-` or `+x`, is rejected. */
  lemma CastRejectsNoDigits(value: string, errorPrefix: string)
    requires var t := TrimStart(value); t == [] || (!IsDigit(t[0]) && (t[0] !in "+-" || |t| == 1 || !IsDigit(t[1])))
    ensures CastAndValidateInt(value, errorPrefix) == Err(IntegerMessage(errorPrefix))
  {
  }

  /** The message of the range error of a transformation. */
  function RangeMessage(name: string, min: int, max: int): (r: string) {
    name + " must be a value between " + IntToString(min) + " and " + IntToString(max)
  }

  /** `transformWidth`: an integer width between MinWidth and MaxWidth becomes `w_<width>`. */
  function TransformWidth(value: string): (r: Result<string, string>)
    ensures r.Ok? <==> CastAndValidateInt(value, "Width").Ok? && MinWidth <= CastAndValidateInt(value, "Width").value <= MaxWidth
    ensures r.Ok? ==> r.value == "w_" + IntToString(CastAndValidateInt(value, "Width").value)
    ensures r.Err? ==> r.error == IntegerMessage("Width") || r.error == RangeMessage("Width", MinWidth, MaxWidth)
    ensures CastAndValidateInt(value, "Width").Err? ==> r == Err(IntegerMessage("Width"))
    ensures CastAndValidateInt(value, "Width").Ok? && !(MinWidth <= CastAndValidateInt(value, "Width").value <= MaxWidth) ==>
              r == Err(RangeMessage("Width", MinWidth, MaxWidth))
  {
    match CastAndValidateInt(value, "Width")
    case Err(e) => Err(e)
    case Ok(width) =>
      if width < MinWidth || width > MaxWidth then Err(RangeMessage("Width", MinWidth, MaxWidth))
      else Ok("w_" + IntToString(width))
  }

  /** `transformHeight`: an integer height between MinHeight and MaxHeight becomes `h_<height>`. */
  function TransformHeight(value: string): (r: Result<string, string>)
    ensures r.Ok? <==> CastAndValidateInt(value, "Height").Ok? && MinHeight <= CastAndValidateInt(value, "Height").value <= MaxHeight
    ensures r.Ok? ==> r.value == "h_" + IntToString(CastAndValidateInt(value, "Height").value)
    ensures r.Err? ==> r.error == IntegerMessage("Height") || r.error == RangeMessage("Height", MinHeight, MaxHeight)
    ensures CastAndValidateInt(value, "Height").Err? ==> r == Err(IntegerMessage("Height"))
    ensures CastAndValidateInt(value, "Height").Ok? && !(MinHeight <= CastAndValidateInt(value, "Height").value <= MaxHeight) ==>
              r == Err(RangeMessage("Height", MinHeight, MaxHeight))
  {
    match CastAndValidateInt(value, "Height")
    case Err(e) => Err(e)
    case Ok(height) =>
      if height < MinHeight || height > MaxHeight then Err(RangeMessage("Height", MinHeight, MaxHeight))
      else Ok("h_" + IntToString(height))
  }

  /** The characters a Cloudinary token is made of. */
  predicate IsTokenChar(c: char) {
    c == 'w' || c == 'h' || c == '_' || IsDigit(c)
  }

  /** A Cloudinary token for `n`: `w_` or `h_`, then the canonical decimal numeral of `n`. */
  predicate IsToken(t: string, n: int) {
    && |t| > 2
    && (t[0] == 'w' || t[0] == 'h') && t[1] == '_'
    && AllDigits(t[2..])
    && DigitsValue(t[2..]) == n
    && (t[2] == '0' ==> t == t[..2] + "0")
  }

  /** A transformation prefix and a canonical numeral make a token. */
  lemma TokenOf(prefix: string, n: int)
    requires (prefix == "w_" || prefix == "h_") && n >= 0
    ensures var t := prefix + IntToString(n); t[..2] == prefix && IsToken(t, n)
  {
    var t := prefix + IntToString(n);
    assert t[..2] == prefix;
    assert t[2..] == NatToString(n);
  }

  /** A token is made of token characters only; in particular it holds no comma and no slash. */
  lemma TokenChars(t: string, n: int)
    requires IsToken(t, n)
    ensures forall i | 0 <= i < |t| :: IsTokenChar(t[i])
  {
    forall i | 2 <= i < |t| ensures IsTokenChar(t[i]) {
      assert t[i] == t[2..][i - 2];
    }
  }

  /** A canonical width numeral becomes its `w_` token when in range, and the range error otherwise. */
  lemma WidthOfNumeral(n: nat)
    requires n <= MaxSafeInteger
    ensures TransformWidth(IntToString(n)) ==
              if MinWidth <= n <= MaxWidth then Ok("w_" + IntToString(n)) else Err(RangeMessage("Width", MinWidth, MaxWidth))
  {
    CastAcceptsCanonical(n, "Width");
  }

  /** A canonical height numeral becomes its `h_` token when in range, and the range error otherwise. */
  lemma HeightOfNumeral(n: nat)
    requires n <= MaxSafeInteger
    ensures TransformHeight(IntToString(n)) ==
              if MinHeight <= n <= MaxHeight then Ok("h_" + IntToString(n)) else Err(RangeMessage("Height", MinHeight, MaxHeight))
  {
    CastAcceptsCanonical(n, "Height");
  }

  /** The transformation functions held by the `transformations` map. */
  datatype Transformation = Width | Height

  /** The `transformations` map, filled once and only read afterwards. */
  const Transformations: map<string, Transformation> := map["width" := Width, "height" := Height]

  function Apply(t: Transformation, value: string): (r: Result<string, string>) {
    match t
    case Width => TransformWidth(value)
    case Height => TransformHeight(value)
  }

  /** The token one query entry contributes, or the error it throws. */
  function EntryToken(entry: Entry): (r: Result<string, string>)
    ensures entry.0 !in {"width", "height"} <==> r == Err("Unknown query param " + entry.0)
    ensures entry.0 == "width" ==> r == TransformWidth(entry.1)
    ensures entry.0 == "height" ==> r == TransformHeight(entry.1)
  {
    if entry.0 !in Transformations then Err("Unknown query param " + entry.0)
    else Apply(Transformations[entry.0], entry.1)
  }

  /** `reduceQueryParam`: append the entry's token to the accumulator, or throw. */
  function ReduceQueryParam(acc: seq<string>, entry: Entry): (r: Result<seq<string>, string>)
    ensures r.Ok? <==> EntryToken(entry).Ok?
    ensures r.Ok? ==> r.value == acc + [EntryToken(entry).value]
    ensures r.Err? ==> r.error == EntryToken(entry).error
  {
    match EntryToken(entry)
    case Ok(t) => Ok(acc + [t])
    case Err(e) => Err(e)
  }

  /** `transformQueryString`, over the decoded entries of the query string: `entries.reduce(reduceQueryParam, []).join(",")`. */
  function TransformQueryString(entries: seq<Entry>): (r: Result<string, string>)
    ensures r.Ok? <==> AllOk(EntryToken, entries)
    ensures r.Ok? ==> r.value == Join(Values(EntryToken, entries), ',')
  {
    ReduceQueryParamAppends();
    ReduceAppends(ReduceQueryParam, EntryToken, [], entries);
    match Reduce(ReduceQueryParam, [], entries)
    case Err(e) => Err(e)
    case Ok(tokens) =>
      assert [] + Values(EntryToken, entries) == Values(EntryToken, entries);
      Ok(Join(tokens, ','))
  }

  // ---- Specification of the compiler ----

  /** `reduceQueryParam` is the reducer that appends each entry's token. */
  lemma ReduceQueryParamAppends()
    ensures Appends(ReduceQueryParam, EntryToken)
  {
    forall acc: seq<string>, entry: Entry ensures ReduceQueryParam(acc, entry) == Appended(EntryToken, acc, entry) {
    }
  }

  /** The compiler succeeds iff every entry is accepted, and then yields exactly the comma-joined tokens, in entry order. */
  lemma TransformQueryStringAccepts(entries: seq<Entry>)
    ensures TransformQueryString(entries).Ok? <==> AllOk(EntryToken, entries)
    ensures AllOk(EntryToken, entries) ==> TransformQueryString(entries) == Ok(Join(Values(EntryToken, entries), ','))
  {
  }

  /** A rejected entry rejects the whole query with the first rejected entry's error; there is no partial output. */
  lemma TransformQueryStringFirstError(entries: seq<Entry>, k: nat)
    requires k < |entries|
    requires forall i | 0 <= i < k :: EntryToken(entries[i]).Ok?
    requires EntryToken(entries[k]).Err?
    ensures TransformQueryString(entries) == Err(EntryToken(entries[k]).error)
  {
    ReduceQueryParamAppends();
    ReduceFirstError(ReduceQueryParam, EntryToken, [], entries, k);
  }

  /** A key other than `width` or `height` anywhere rejects the query; it is the reported error when no earlier entry fails. */
  lemma UnknownKeyRejects(entries: seq<Entry>, k: nat)
    requires k < |entries| && entries[k].0 != "width" && entries[k].0 != "height"
    ensures TransformQueryString(entries).Err?
    ensures (forall i | 0 <= i < k :: EntryToken(entries[i]).Ok?) ==>
              TransformQueryString(entries) == Err("Unknown query param " + entries[k].0)
  {
    var bad := EntryToken(entries[k]);
    assert bad == Err("Unknown query param " + entries[k].0);
    TransformQueryStringAccepts(entries);
    if AllOk(EntryToken, entries) {
      ValuesAt(EntryToken, entries, k);
    }
    if forall i | 0 <= i < k :: EntryToken(entries[i]).Ok? {
      TransformQueryStringFirstError(entries, k);
    }
  }

  /** No query entries compile to the empty string. */
  lemma EmptyQueryIsEmpty()
    ensures TransformQueryString([]) == Ok("")
  {
  }

  /** An accepted width is a `w_` token for the canonical numeral of an in-range integer. */
  lemma WidthTokenShape(value: string)
    requires TransformWidth(value).Ok?
    ensures var t := TransformWidth(value).value; var n := CastAndValidateInt(value, "Width").value;
      t[..2] == "w_" && IsToken(t, n) && MinWidth <= n <= MaxWidth
  {
    TokenOf("w_", CastAndValidateInt(value, "Width").value);
  }

  /** An accepted height is an `h_` token for the canonical numeral of an in-range integer. */
  lemma HeightTokenShape(value: string)
    requires TransformHeight(value).Ok?
    ensures var t := TransformHeight(value).value; var n := CastAndValidateInt(value, "Height").value;
      t[..2] == "h_" && IsToken(t, n) && MinHeight <= n <= MaxHeight
  {
    TokenOf("h_", CastAndValidateInt(value, "Height").value);
  }

  /** Splitting a successful output on commas recovers the per-entry tokens, in entry order. */
  lemma SplitRecoversTokens(entries: seq<Entry>)
    requires entries != [] && AllOk(EntryToken, entries)
    ensures TransformQueryString(entries).Ok?
    ensures Split(TransformQueryString(entries).value, ',') == Values(EntryToken, entries)
  {
    TransformQueryStringAccepts(entries);
    var ts := Values(EntryToken, entries);
    forall i | 0 <= i < |ts| ensures ',' !in ts[i] {
      ValuesAt(EntryToken, entries, i);
      EntryTokenChars(entries[i]);
      assert forall j | 0 <= j < |ts[i]| :: ts[i][j] != ',';
    }
    SplitOfJoin(ts, ',');
  }

  /** An accepted entry's token is made of token characters only. */
  lemma EntryTokenChars(entry: Entry)
    requires EntryToken(entry).Ok?
    ensures forall i | 0 <= i < |EntryToken(entry).value| :: IsTokenChar(EntryToken(entry).value[i])
  {
    if entry.0 == "width" {
      WidthTokenShape(entry.1);
      TokenChars(TransformWidth(entry.1).value, CastAndValidateInt(entry.1, "Width").value);
    } else {
      HeightTokenShape(entry.1);
      TokenChars(TransformHeight(entry.1).value, CastAndValidateInt(entry.1, "Height").value);
    }
  }

  /** The whole output is made of token characters and commas: no slash, so it is one segment of a URI path. */
  lemma TransformQueryStringChars(entries: seq<Entry>)
    requires TransformQueryString(entries).Ok?
    ensures forall i | 0 <= i < |TransformQueryString(entries).value| ::
              IsTokenChar(TransformQueryString(entries).value[i]) || TransformQueryString(entries).value[i] == ','
  {
    TransformQueryStringAccepts(entries);
    var ts := Values(EntryToken, entries);
    forall i, j | 0 <= i < |ts| && 0 <= j < |ts[i]| ensures IsTokenOrComma(ts[i][j]) {
      ValuesAt(EntryToken, entries, i);
      EntryTokenChars(entries[i]);
    }
    JoinChars(ts, ',', IsTokenOrComma);
  }

  /** The characters of a compiled transformation list. */
  predicate IsTokenOrComma(c: char) {
    IsTokenChar(c) || c == ','
  }

  /** Two accepted entries compile to their two tokens, comma-separated, in order. */
  lemma TwoAccepted(first: Entry, second: Entry)
    requires EntryToken(first).Ok? && EntryToken(second).Ok?
    ensures TransformQueryString([first, second]) == Ok(EntryToken(first).value + "," + EntryToken(second).value)
  {
    var entries := [first, second];
    AllOkOfEach(EntryToken, entries);
    ValuesAt(EntryToken, entries, 0);
    ValuesAt(EntryToken, entries, 1);
    TransformQueryStringAccepts(entries);
    var ts := Values(EntryToken, entries);
    assert ts == [EntryToken(first).value, EntryToken(second).value];
    assert Join(ts, ',') == ts[0] + [','] + Join(ts[1..], ',');
  }

  /** `?width=W&height=H` with both in range compiles to `w_W,h_H`. */
  lemma WidthThenHeight(w: nat, h: nat)
    requires MinWidth <= w <= MaxWidth && MinHeight <= h <= MaxHeight
    ensures TransformQueryString([("width", IntToString(w)), ("height", IntToString(h))]) ==
              Ok(("w_" + IntToString(w)) + "," + ("h_" + IntToString(h)))
  {
    WidthEntry(w);
    HeightEntry(h);
    TwoAccepted(("width", IntToString(w)), ("height", IntToString(h)));
  }

  /** A `width` entry with an in-range canonical value is accepted as its `w_` token. */
  lemma WidthEntry(w: nat)
    requires MinWidth <= w <= MaxWidth
    ensures EntryToken(("width", IntToString(w))) == Ok("w_" + IntToString(w))
  {
    WidthOfNumeral(w);
  }

  /** A `height` entry with an in-range canonical value is accepted as its `h_` token. */
  lemma HeightEntry(h: nat)
    requires MinHeight <= h <= MaxHeight
    ensures EntryToken(("height", IntToString(h))) == Ok("h_" + IntToString(h))
  {
    HeightOfNumeral(h);
  }
}
