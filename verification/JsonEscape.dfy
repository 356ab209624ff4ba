/** Escaping of string parameters, and the append mode of SetEventValue built on it. */
module JsonEscape {
  import opened Collections

  const BACKSLASH: char := '\\'
  const QUOTE: char := '\"'
  const BACKSPACE: char := '\U{0008}'
  const FORM_FEED: char := '\U{000C}'

  predicate Special(c: char) {
    c == BACKSLASH || c == QUOTE || c == BACKSPACE || c == FORM_FEED || c == '\n' || c == '\r' || c == '\t'
  }

  /** The letter that stands for a special character after the backslash. */
  function Letter(c: char): char
    requires Special(c)
  {
    if c == BACKSPACE then 'b'
    else if c == FORM_FEED then 'f'
    else if c == '\n' then 'n'
    else if c == '\r' then 'r'
    else if c == '\t' then 't'
    else c
  }

  /** The character a letter after a backslash stands for; an unknown letter stands for itself. */
  function Meant(c: char): char {
    if c == 'b' then BACKSPACE
    else if c == 'f' then FORM_FEED
    else if c == 'n' then '\n'
    else if c == 'r' then '\r'
    else if c == 't' then '\t'
    else c
  }

  function EscapeChar(c: char): string {
    if Special(c) then [BACKSLASH, Letter(c)] else [c]
  }

  function Escape(s: string): string {
    if s == "" then "" else Escape(s[..|s| - 1]) + EscapeChar(s[|s| - 1])
  }

  /** The decoder: the output so far, and whether the last character was an unused backslash. */
  datatype Decoder = Decoder(output: string, escaped: bool)

  function Feed(d: Decoder, c: char): Decoder {
    if d.escaped then Decoder(d.output + [Meant(c)], false)
    else if c == BACKSLASH then Decoder(d.output, true)
    else Decoder(d.output + [c], false)
  }

  function Decode(s: string): Decoder {
    if s == "" then Decoder("", false) else Feed(Decode(s[..|s| - 1]), s[|s| - 1])
  }

  /** A backslash at the very end is dropped. */
  function Unescape(s: string): string {
    Decode(s).output
  }

  method EscapeJsonStringValue(value: string) returns (escapeValue: string)
    ensures escapeValue == Escape(value)
  {
    escapeValue := "";
    for i := 0 to |value|
      invariant escapeValue == Escape(value[..i])
    {
      assert value[..i + 1][..i] == value[..i];
      var c := value[i];
      if c == BACKSLASH {
        escapeValue := escapeValue + [BACKSLASH, BACKSLASH];
      } else if c == QUOTE {
        escapeValue := escapeValue + [BACKSLASH, QUOTE];
      } else if c == BACKSPACE {
        escapeValue := escapeValue + [BACKSLASH, 'b'];
      } else if c == FORM_FEED {
        escapeValue := escapeValue + [BACKSLASH, 'f'];
      } else if c == '\n' {
        escapeValue := escapeValue + [BACKSLASH, 'n'];
      } else if c == '\r' {
        escapeValue := escapeValue + [BACKSLASH, 'r'];
      } else if c == '\t' {
        escapeValue := escapeValue + [BACKSLASH, 't'];
      } else {
        escapeValue := escapeValue + [c];
      }
    }
    assert value[..|value|] == value;
  }

  method UnescapeJsonStringValue(value: string) returns (unescapeValue: string)
    ensures unescapeValue == Unescape(value)
  {
    var isEscaped := false;
    unescapeValue := "";
    for i := 0 to |value|
      invariant Decoder(unescapeValue, isEscaped) == Decode(value[..i])
    {
      assert value[..i + 1][..i] == value[..i];
      var c := value[i];
      if isEscaped {
        if c == 'b' {
          unescapeValue := unescapeValue + [BACKSPACE];
        } else if c == 'f' {
          unescapeValue := unescapeValue + [FORM_FEED];
        } else if c == 'n' {
          unescapeValue := unescapeValue + ['\n'];
        } else if c == 'r' {
          unescapeValue := unescapeValue + ['\r'];
        } else if c == 't' {
          unescapeValue := unescapeValue + ['\t'];
        } else {
          unescapeValue := unescapeValue + [c];
        }
        isEscaped := false;
      } else if c == BACKSLASH {
        isEscaped := true;
      } else {
        unescapeValue := unescapeValue + [c];
      }
    }
    assert value[..|value|] == value;
  }

  // ---------- Round trip ----------

  lemma DecodeSnoc(s: string, c: char)
    ensures Decode(s + [c]) == Feed(Decode(s), c)
  {
    assert (s + [c])[..|s|] == s;
  }

  /** Whatever has been decoded so far, an escaped character adds that character. */
  lemma DecodeEscapedChar(e: string, c: char)
    requires !Decode(e).escaped
    ensures Decode(e + EscapeChar(c)) == Decoder(Decode(e).output + [c], false)
  {
    if Special(c) {
      var l := Letter(c);
      assert Meant(l) == c;
      DecodeSnoc(e, BACKSLASH);
      DecodeSnoc(e + [BACKSLASH], l);
      assert e + [BACKSLASH] + [l] == e + EscapeChar(c);
    } else {
      DecodeSnoc(e, c);
    }
  }

  lemma EscapeSnoc(s: string, c: char)
    ensures Escape(s + [c]) == Escape(s) + EscapeChar(c)
  {
    assert (s + [c])[..|s|] == s;
  }

  lemma DecodeEscapeTurn(before: string, c: char)
    requires Decode(Escape(before)) == Decoder(before, false)
    ensures Decode(Escape(before + [c])) == Decoder(before + [c], false)
  {
    EscapeSnoc(before, c);
    DecodeEscapedChar(Escape(before), c);
  }

  /** Decoding an escaped string gives the string back, with no backslash left over. */
  lemma {:induction false} DecodeEscape(s: string)
    ensures Decode(Escape(s)) == Decoder(s, false)
  {
    if s != "" {
      var before, c := s[..|s| - 1], s[|s| - 1];
      assert s == before + [c];
      DecodeEscape(before);
      DecodeEscapeTurn(before, c);
    }
  }

  lemma RoundTrip(s: string)
    ensures Unescape(Escape(s)) == s
  {
    DecodeEscape(s);
  }

  // ---------- The JSON notation ----------

  /** The two-character escapes of section 7 of RFC 8259: what the character after the backslash means. */
  ghost function JsonMeaning(c: char): char {
    match c
    case 'b' => '\U{0008}'
    case 'f' => '\U{000C}'
    case 'n' => '\U{000A}'
    case 'r' => '\U{000D}'
    case 't' => '\U{0009}'
    case _ => c
  }

  /** What a JSON text of plain characters and two-character escapes means, read from the front; other
      characters after a backslash mean themselves, and a backslash at the end means nothing. */
  ghost function JsonText(t: string): string {
    if t == "" then ""
    else if t[0] == '\\' && |t| > 1 then [JsonMeaning(t[1])] + JsonText(t[2..])
    else if t[0] == '\\' then ""
    else [t[0]] + JsonText(t[1..])
  }

  /** Whether a text read from the front ends with an unused backslash. */
  ghost predicate OpenFront(t: string) {
    t != "" && (if t[0] == '\\' then |t| == 1 || OpenFront(t[2..]) else OpenFront(t[1..]))
  }

  /** What one more character does to a text read from the front. */
  ghost predicate ReadsOn(t: string, c: char) {
    if OpenFront(t) then JsonText(t + [c]) == JsonText(t) + [JsonMeaning(c)] && !OpenFront(t + [c])
    else if c == '\\' then JsonText(t + [c]) == JsonText(t) && OpenFront(t + [c])
    else JsonText(t + [c]) == JsonText(t) + [c] && !OpenFront(t + [c])
  }

  lemma {:induction false} ReadOneMore(t: string, c: char)
    ensures ReadsOn(t, c)
    decreases |t|
  {
    if t == "" {
      assert t + [c] == [c] && [c][1..] == "";
    } else if t[0] != '\\' {
      assert (t + [c])[1..] == t[1..] + [c];
      ReadOneMore(t[1..], c);
    } else if |t| == 1 {
      assert (t + [c])[2..] == "";
    } else {
      assert (t + [c])[2..] == t[2..] + [c];
      ReadOneMore(t[2..], c);
    }
  }

  lemma {:induction false} DecodeIsReading(t: string)
    ensures Decode(t) == Decoder(JsonText(t), OpenFront(t))
  {
    if t != "" {
      var before, c := t[..|t| - 1], t[|t| - 1];
      DecodeIsReading(before);
      ReadOneMore(before, c);
      assert t == before + [c];
    }
  }

  /** For every text, escaped or not, unescaping gives what the text means in that notation. */
  lemma UnescapeIsJsonText(t: string)
    ensures Unescape(t) == JsonText(t)
  {
    DecodeIsReading(t);
  }

  /** An escaped string is a text that means the string. */
  lemma EscapedMeansString(s: string)
    ensures JsonText(Escape(s)) == s && !OpenFront(Escape(s))
  {
    DecodeEscape(s);
    DecodeIsReading(Escape(s));
  }

  // ---------- What escaped strings look like ----------

  /** Whether the character that follows s is escaped. */
  predicate OpenEscape(s: string) {
    Decode(s).escaped
  }

  /** None of the control characters that have an escape occurs in t, and every quote in it is escaped, so
      that none can end the string early. */
  ghost predicate AllEscaped(t: string) {
    forall i | 0 <= i < |t| ::
      && t[i] !in {'\U{0008}', '\U{0009}', '\U{000A}', '\U{000C}', '\U{000D}'}
      && (t[i] == '\"' ==> OpenEscape(t[..i]))
  }

  lemma AllEscapedExtend(t: string, tail: string)
    requires AllEscaped(t) && !OpenEscape(t)
    requires (|tail| == 1 && !Special(tail[0])) ||
             (|tail| == 2 && tail[0] == BACKSLASH && (Special(tail[1]) ==> tail[1] == BACKSLASH || tail[1] == QUOTE))
    ensures AllEscaped(t + tail)
  {
    var u := t + tail;
    forall i | 0 <= i < |u|
      ensures u[i] !in {'\U{0008}', '\U{0009}', '\U{000A}', '\U{000C}', '\U{000D}'}
      ensures u[i] == '\"' ==> OpenEscape(u[..i])
    {
      if i < |t| {
        assert u[..i] == t[..i];
      } else if i == |t| + 1 {
        assert u[..i] == t + [BACKSLASH] && (t + [BACKSLASH])[..|t|] == t;
      }
    }
  }

  /** An escaped string holds no raw control character, every quote in it is escaped, and no backslash
      is left open at its end. */
  lemma {:induction false} EscapedIsSafe(s: string)
    ensures AllEscaped(Escape(s)) && !OpenEscape(Escape(s))
  {
    DecodeEscape(s);
    if s != "" {
      var before, c := s[..|s| - 1], s[|s| - 1];
      EscapedIsSafe(before);
      AllEscapedExtend(Escape(before), EscapeChar(c));
    }
  }

  predicate IsLetter(c: char) {
    c == BACKSLASH || c == QUOTE || c == 'b' || c == 'f' || c == 'n' || c == 'r' || c == 't'
  }

  /** A string made of plain characters and of backslashes with one of the seven letters. */
  predicate Canonical(t: string) {
    t == "" || (if EndsInPair(t) then Canonical(t[..|t| - 2]) else EndsPlain(t) && Canonical(t[..|t| - 1]))
  }

  predicate EndsInPair(t: string) {
    |t| >= 2 && t[|t| - 2] == BACKSLASH && IsLetter(t[|t| - 1]) && !OpenEscape(t[..|t| - 2])
  }

  predicate EndsPlain(t: string) {
    |t| >= 1 && !Special(t[|t| - 1]) && !OpenEscape(t[..|t| - 1])
  }

  lemma LetterMeant(c: char)
    ensures IsLetter(c) ==> Special(Meant(c)) && Letter(Meant(c)) == c
    ensures Special(c) ==> IsLetter(Letter(c)) && Meant(Letter(c)) == c
  {
  }

  lemma CanonicalTurn(before: string, c: char)
    requires !OpenEscape(before) && Escape(Unescape(before)) == before
    ensures var t := before + EscapeChar(c); !OpenEscape(t) && Escape(Unescape(t)) == t
  {
    DecodeEscapedChar(before, c);
    EscapeSnoc(Unescape(before), c);
  }

  /** A non-empty string in escaped form is a shorter one followed by one escaped character. */
  lemma CanonicalParts(t: string) returns (before: string, c: char)
    requires Canonical(t) && t != ""
    ensures Canonical(before) && |before| < |t| && t == before + EscapeChar(c)
  {
    if EndsInPair(t) {
      before, c := t[..|t| - 2], Meant(t[|t| - 1]);
      LetterMeant(t[|t| - 1]);
    } else {
      before, c := t[..|t| - 1], t[|t| - 1];
    }
  }

  lemma {:induction false} CanonicalDecodes(t: string)
    requires Canonical(t)
    ensures !OpenEscape(t) && Escape(Unescape(t)) == t
    decreases |t|
  {
    if t != "" {
      var before, c := CanonicalParts(t);
      CanonicalDecodes(before);
      CanonicalTurn(before, c);
    }
  }

  /** Adding an escaped character to a string in escaped form keeps the form. */
  lemma CanonicalExtend(e: string, c: char)
    requires Canonical(e) && !OpenEscape(e)
    ensures Canonical(e + EscapeChar(c))
  {
    var t := e + EscapeChar(c);
    if Special(c) {
      LetterMeant(c);
      assert t[..|t| - 2] == e;
      assert EndsInPair(t);
    } else {
      assert t[..|t| - 1] == e;
      // a backslash just before would leave the prefix open
      assert |e| >= 1 && e[|e| - 1] == BACKSLASH && !OpenEscape(e[..|e| - 1]) ==> OpenEscape(e);
      assert |t| >= 2 ==> t[..|t| - 2] == e[..|e| - 1];
      assert !EndsInPair(t) && EndsPlain(t);
    }
  }

  lemma {:induction false} EscapedIsCanonical(s: string)
    ensures Canonical(Escape(s))
  {
    if s != "" {
      var before, c := s[..|s| - 1], s[|s| - 1];
      EscapedIsCanonical(before);
      DecodeEscape(before);
      CanonicalExtend(Escape(before), c);
    }
  }

  /** Unescaping and escaping again gives a stored string back exactly when it is in escaped form. */
  lemma EscapeUnescapeIff(t: string)
    ensures Escape(Unescape(t)) == t <==> Canonical(t)
  {
    if Canonical(t) {
      CanonicalDecodes(t);
    }
    EscapedIsCanonical(Unescape(t));
  }

  // ---------- SetEventValue ----------

  datatype Param = Text(text: string) | Number(value: int)

  function Concat(parts: seq<string>): string {
    if parts == [] then "" else Concat(parts[..|parts| - 1]) + parts[|parts| - 1]
  }

  /** What SetEventValue stores over a text, in append mode. */
  function Appended(stored: string, value: string): string {
    Escape(Unescape(stored) + value)
  }

  function AppendAll(stored: string, pieces: seq<string>): string {
    if pieces == [] then stored else Appended(AppendAll(stored, pieces[..|pieces| - 1]), pieces[|pieces| - 1])
  }

  /** The parameters of an event. `ready` says whether the builder could be set up. */
  class SysEventParams {
    const ready: bool
    var params: map<string, Param>
    var isUpdated: bool

    constructor (ready: bool)
      ensures this.ready == ready && params == map[] && !isUpdated
    {
      this.ready := ready;
      params, isUpdated := map[], false;
    }

    /** Stores a string, escaped; in append mode after what is stored already, if that is a string. */
    method SetEventValue(key: string, value: string, appendValue: bool)
      modifies this
      ensures !ready ==> params == old(params) && isUpdated == old(isUpdated)
      ensures ready ==> isUpdated
      ensures ready ==> params == old(params)[key := Text(
                          if appendValue && key in old(params) && old(params)[key].Text?
                          then Appended(old(params)[key].text, value) else Escape(value))]
    {
      if !ready {
        return;
      }
      var v := value;
      if appendValue && key in params && params[key].Text? {
        var paramValue := UnescapeJsonStringValue(params[key].text);
        v := paramValue + value;
      }
      var escaped := EscapeJsonStringValue(v);
      params := params[key := Text(escaped)];
      isUpdated := true;
    }
  }

  lemma AppendTurn(u: string, last: string)
    ensures Appended(Escape(u), last) == Escape(u + last)
  {
    RoundTrip(u);
  }

  lemma AppendAllLast(stored: string, before: seq<string>, last: string)
    ensures AppendAll(stored, before + [last]) == Appended(AppendAll(stored, before), last)
    ensures Concat(before + [last]) == Concat(before) + last
  {
    assert (before + [last])[..|before|] == before;
  }

  /** A value written once and then extended any number of times in append mode: what is stored is
      the escape of the concatenation, as if it had been written in one piece. */
  lemma {:induction false} AppendsConcatenate(value: string, pieces: seq<string>)
    ensures AppendAll(Escape(value), pieces) == Escape(value + Concat(pieces))
  {
    if pieces == [] {
      assert value + Concat(pieces) == value;
    } else {
      var before, last := pieces[..|pieces| - 1], pieces[|pieces| - 1];
      assert pieces == before + [last];
      AppendsConcatenate(value, before);
      AppendAllLast(Escape(value), before, last);
      AppendTurn(value + Concat(before), last);
      Assoc(value, Concat(before), last);
    }
  }
}
