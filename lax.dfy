/** decoder.py: the text-oriented tokenizer built on one regular
    expression, the decoder that reads a dictionary as a list of
    alternating keys and values, and the bytes its `main` hands to SHA-1.

    decoder.py decodes the file as latin-1 before tokenizing, so every
    character is one byte and the text is modelled as the file's bytes.
    As in bendecode.py, the tokenizer is a generator: Scan gives all it
    yields and what it raises at the end, and the class Tokenizer is the
    generator resumed one `next()` at a time. */
module Lax {
  import opened Codec
  import Strict

  // ---------------------------------------------------------------------
  // The token generator (`tokenize`)

  /** The end of the run of ASCII digits starting at i: the first offset
      at or after i that holds no digit, or the end of the data. `\d+`
      matches exactly this run (latin-1 text has no other decimal
      digits). */
  function DigitsEnd(data: Bytes, i: nat): (r: nat)
    requires i <= |data|
    ensures i <= r <= |data|
    ensures forall k :: i <= k < r ==> IsDigit(data[k])
    ensures r == |data| || !IsDigit(data[r])
    decreases |data| - i
  {
    if i == |data| || !IsDigit(data[i]) then i else DigitsEnd(data, i + 1)
  }

  function Min(a: nat, b: nat): nat {
    if a <= b then a else b
  }

  /** One pass of the `while` loop body at offset i < len(text). The
      pattern `([idel])|(\d+):|(-?\d+)` is tried at i, its alternatives
      in order:
        1. one of `i`, `d`, `e`, `l`, yielded as it is;
        2. a run of digits and a colon: `s`, then the next int(digits)
           characters, as many of them as there are, and the loop skips
           int(digits) characters whether or not they are there;
        3. an optional minus sign and a run of digits, yielded as it is;
      and no match raises SyntaxError. */
  function Lex(data: Bytes, i: nat): (r: Result<Lexeme, Error>)
    requires i < |data|
    ensures r.Success? ==> i < r.value.next && r.value.tokens != []
    ensures r.Failure? ==> r.error == NoMatch(i)
  {
    var c := data[i];
    if c == CHAR_I || c == CHAR_D || c == CHAR_E || c == CHAR_L then
      Success(Lexeme([[c]], i + 1))
    else if IsDigit(c) then
      var j := DigitsEnd(data, i);
      if j < |data| && data[j] == COLON then
        var start := j + 1;
        var length := ParseNat(data[i..j]);
        Success(Lexeme([[CHAR_S], data[start..Min(start + length, |data|)]], start + length))
      else
        Success(Lexeme([data[i..j]], j))
    else if c == MINUS && i + 1 < |data| && IsDigit(data[i + 1]) then
      Success(Lexeme([data[i..DigitsEnd(data, i + 1)]], DigitsEnd(data, i + 1)))
    else
      Failure(NoMatch(i))
  }

  /** The generator started at offset i, run to the end. */
  function Scan(data: Bytes, i: nat): Stream
    decreases |data| - i, 1
  {
    if i >= |data| then Stream([], Exhausted) else Pass(data, i)
  }

  /** One pass of the loop at i < len(text), then the loop from where the
      pass leaves i. */
  function Pass(data: Bytes, i: nat): Stream
    requires i < |data|
    decreases |data| - i, 0
  {
    match Lex(data, i)
    case Failure(e) => Stream([], e)
    case Success(lx) => Then(lx.tokens, Scan(data, lx.next))
  }

  lemma ScanStep(data: Bytes, i: nat, lx: Lexeme)
    requires i < |data| && Lex(data, i) == Success(lx)
    ensures Scan(data, i) == Then(lx.tokens, Scan(data, lx.next))
  {
  }

  lemma ScanFails(data: Bytes, i: nat, e: Error)
    requires i < |data| && Lex(data, i) == Failure(e)
    ensures Scan(data, i) == Stream([], e)
  {
    assert Scan(data, i) == Pass(data, i);
  }

  /** The generator as a class: `data` is the text it was created on,
      `pos` the loop offset `i`, and `pending` the tokens of the current
      pass of the loop not yielded yet. */
  class Tokenizer {
    const data: Bytes
    var pos: nat
    var pending: seq<Bytes>

    /** What the generator will still yield and raise. */
    ghost function Remaining(): Stream
      reads this
    {
      Then(pending, Scan(data, pos))
    }

    /** `tokenize(text)`: a generator that has not started. */
    constructor(data: Bytes)
      ensures this.data == data && Remaining() == Scan(data, 0)
    {
      this.data := data;
      pos := 0;
      pending := [];
    }

    /** `next(src)`: resume the loop until the next `yield`. */
    method Next() returns (p: Result<Bytes, Error>)
      modifies this
      ensures p == Pull(old(Remaining()))
      ensures Remaining() == Rest(old(Remaining()))
    {
      if pending != [] {
        PullThen(pending, Scan(data, pos));
        p := Success(pending[0]);
        pending := pending[1..];
      } else if pos >= |data| {
        ThenNothing(Scan(data, pos));
        p := Failure(Exhausted);
      } else {
        ThenNothing(Scan(data, pos));
        var lexed := MatchAt(data, pos);
        if lexed.Failure? {
          ScanFails(data, pos, lexed.error);
          p := Failure(lexed.error);
        } else {
          var lx := lexed.value;
          ScanStep(data, pos, lx);
          PullThen(lx.tokens, Scan(data, lx.next));
          p := Success(lx.tokens[0]);
          pos, pending := lx.next, lx.tokens[1..];
        }
      }
    }
  }

  /** One pass of the loop body at offset i: the match, the group it took,
      and what is yielded for it. */
  method MatchAt(data: Bytes, i: nat) returns (r: Result<Lexeme, Error>)
    requires i < |data|
    ensures r == Lex(data, i)
  {
    var c := data[i];
    if c == CHAR_I || c == CHAR_D || c == CHAR_E || c == CHAR_L {
      return Success(Lexeme([[c]], i + 1));
    }
    if IsDigit(c) {
      var j := DigitsEnd(data, i);
      if j < |data| && data[j] == COLON {
        var start := j + 1;
        var length := ParseNat(data[i..j]);
        return Success(Lexeme([[CHAR_S], data[start..Min(start + length, |data|)]], start + length));
      }
      return Success(Lexeme([data[i..j]], j));
    }
    if c == MINUS && i + 1 < |data| && IsDigit(data[i + 1]) {
      var j := DigitsEnd(data, i + 1);
      return Success(Lexeme([data[i..j]], j));
    }
    return Failure(NoMatch(i));
  }

  // ---------------------------------------------------------------------
  // The decoder (`decode_item`, `decode`)

  /** `dict(zip(items[0::2], items[1::2]))` added to acc: the items paired
      up in order, an unpaired last item dropped, each pair stored with
      `d[k] = v`. A key that is not a byte string is refused. */
  function FromPairs(items: seq<Value>, acc: seq<Entry<Value>>): (r: Result<seq<Entry<Value>>, Error>)
    ensures r.Failure? ==> r.error.KeyNotBytes?
    decreases |items|
  {
    if |items| < 2 then Success(acc)
    else if !items[0].Str? then Failure(KeyNotBytes(items[0]))
    else FromPairs(items[2..], Put(acc, items[0].bytes, items[1]))
  }

  /** The errors the decoder raises itself, as opposed to those the
      generator raises: ValueError for a token that is no integer, an
      integer not closed by `e` and a token that starts no value, and
      TypeError for a key that cannot be hashed. */
  predicate DecoderError(e: Error) {
    e.NotAnInteger? || e.BadTermination? || e.UnexpectedToken? || e.KeyNotBytes?
  }

  /** `decode_item(next_token, token)` on a generator that will yield s. */
  function Item(s: Stream, token: Bytes): (r: Result<Decoded, Error>)
    ensures r.Success? ==> |r.value.rest.tokens| < |s.tokens|
    ensures r.Success? ==> r.value.rest.stop == s.stop
    ensures r.Failure? ==> r.error == s.stop || DecoderError(r.error)
    decreases |s.tokens|, 1
  {
    if token == [CHAR_I] then
      match Pull(s)
      case Failure(e) => Failure(e)
      case Success(number) =>
        match ParseInt(number)
        case None => Failure(NotAnInteger(number))
        case Some(n) =>
          match Pull(Rest(s))
          case Failure(e) => Failure(e)
          case Success(close) =>
            if close != [CHAR_E] then Failure(BadTermination) else Success(Decoded(Int(n), Rest(Rest(s))))
    else if token == [CHAR_S] then
      match Pull(s)
      case Failure(e) => Failure(e)
      case Success(payload) => Success(Decoded(Str(payload), Rest(s)))
    else if token == [CHAR_L] || token == [CHAR_D] then
      match Elements(s, [])
      case Failure(e) => Failure(e)
      case Success(d) =>
        if token == [CHAR_L] then Success(d)
        else
          match FromPairs(d.value.items, [])
          case Failure(e) => Failure(e)
          case Success(es) => Success(Decoded(Dict(es), d.rest))
    else
      Failure(UnexpectedToken(token))
  }

  /** `decode_item(next_token, next_token())`. */
  function NextItem(s: Stream): (r: Result<Decoded, Error>)
    ensures r.Success? ==> |r.value.rest.tokens| < |s.tokens|
    ensures r.Success? ==> r.value.rest.stop == s.stop
    ensures r.Failure? ==> r.error == s.stop || DecoderError(r.error)
    decreases |s.tokens|, 2
  {
    match Pull(s)
    case Failure(e) => Failure(e)
    case Success(token) => Item(Rest(s), token)
  }

  /** The loop of the `l`/`d` branch; acc holds the items appended so far. */
  function Elements(s: Stream, acc: seq<Value>): (r: Result<Decoded, Error>)
    ensures r.Success? ==> |r.value.rest.tokens| < |s.tokens| && r.value.value.List?
    ensures r.Success? ==> r.value.rest.stop == s.stop
    ensures r.Failure? ==> r.error == s.stop || DecoderError(r.error)
    decreases |s.tokens|, 0
  {
    match Pull(s)
    case Failure(e) => Failure(e)
    case Success(token) =>
      if token == [CHAR_E] then Success(Decoded(List(acc), Rest(s)))
      else match Item(Rest(s), token)
        case Failure(e) => Failure(e)
        case Success(x) => Elements(x.rest, acc + [x.value])
  }

  /** `decode_item(next_token, token)` pulling from the generator t. */
  method DecodeItem(t: Tokenizer, token: Bytes) returns (r: Result<Value, Error>)
    modifies t
    ensures r == Outcome(Item(old(t.Remaining()), token))
    ensures r.Success? ==> t.Remaining() == Item(old(t.Remaining()), token).value.rest
    decreases |t.Remaining().tokens|, 1
  {
    if token == [CHAR_I] {
      var number := t.Next();
      if number.Failure? {
        return Failure(number.error);
      }
      var value := ParseInt(number.value);
      if value.None? {
        return Failure(NotAnInteger(number.value));
      }
      var close := t.Next();
      if close.Failure? {
        return Failure(close.error);
      }
      if close.value != [CHAR_E] {
        return Failure(BadTermination);
      }
      return Success(Int(value.value));
    } else if token == [CHAR_S] {
      var payload := t.Next();
      if payload.Failure? {
        return Failure(payload.error);
      }
      return Success(Str(payload.value));
    } else if token == [CHAR_L] || token == [CHAR_D] {
      var items := DecodeElements(t);
      if items.Failure? || token == [CHAR_L] {
        return items;
      }
      var pairs := FromPairs(items.value.items, []);
      if pairs.Failure? {
        return Failure(pairs.error);
      }
      return Success(Dict(pairs.value));
    } else {
      return Failure(UnexpectedToken(token));
    }
  }

  /** `decode_item(next_token, next_token())` pulling from t. */
  method DecodeNext(t: Tokenizer) returns (r: Result<Value, Error>)
    modifies t
    ensures r == Outcome(NextItem(old(t.Remaining())))
    ensures r.Success? ==> t.Remaining() == NextItem(old(t.Remaining())).value.rest
    decreases |t.Remaining().tokens|, 2
  {
    var token := t.Next();
    if token.Failure? {
      return Failure(token.error);
    }
    r := DecodeItem(t, token.value);
  }

  /** The loop of the `l`/`d` branch: items appended to `data` until an
      `e` token. */
  method DecodeElements(t: Tokenizer) returns (r: Result<Value, Error>)
    modifies t
    ensures r == Outcome(Elements(old(t.Remaining()), []))
    ensures r.Success? ==> t.Remaining() == Elements(old(t.Remaining()), []).value.rest
    decreases |t.Remaining().tokens|, 0
  {
    ghost var start := t.Remaining();
    var data: seq<Value> := [];
    ghost var s := t.Remaining();
    var tok := t.Next();
    while tok.Success? && tok.value != [CHAR_E]
      invariant tok == Pull(s) && t.Remaining() == Rest(s) && |s.tokens| <= |start.tokens|
      invariant Elements(s, data) == Elements(start, [])
      decreases |s.tokens|
    {
      var item := DecodeItem(t, tok.value);
      if item.Failure? {
        return Failure(item.error);
      }
      data := data + [item.value];
      s := t.Remaining();
      tok := t.Next();
    }
    if tok.Failure? {
      return Failure(tok.error);
    }
    return Success(List(data));
  }

  /** `decode(text)` up to the exception it raises: the first value, then
      draining the generator, which must yield nothing more. */
  function Document(data: Bytes): (r: Result<Value, Error>)
    ensures data == [] ==> r == Failure(Exhausted)
  {
    match NextItem(Scan(data, 0))
    case Failure(e) => Failure(e)
    case Success(d) =>
      match Pull(d.rest)
      case Success(_) => Failure(TrailingData)
      case Failure(e) => if e.Exhausted? then Success(d.value) else Failure(e)
  }

  /** The exception `decode` lets out for an error: ValueError and
      StopIteration are caught and raised again as SyntaxError. */
  function Surfaced(e: Error): (x: Exception)
    ensures x != ValueError && x != StopIteration
  {
    var raised := Raised(e);
    if raised == ValueError || raised == StopIteration then SyntaxError else raised
  }

  /** `decode(text)`. */
  method Decode(data: Bytes) returns (r: Result<Value, Error>)
    ensures r == Document(data)
  {
    var src := new Tokenizer(data);
    r := DecodeNext(src);
    if r.Failure? {
      return;
    }
    var extra := src.Next();
    if extra.Success? {
      return Failure(TrailingData);
    }
    if !extra.error.Exhausted? {
      return Failure(extra.error);
    }
  }

  // ---------------------------------------------------------------------
  // The generator on bytes the encoder wrote

  /** `\d+` at q, over the digits s written there and followed by a byte
      that is no digit (or by the end of the data), ends right after s. */
  lemma {:induction false} DigitsEndAt(data: Bytes, q: nat, s: Bytes, r: nat)
    requires At(data, q, s) && AllDigits(s) && r == q + |s|
    requires r == |data| || !IsDigit(data[r])
    ensures DigitsEnd(data, q) == r
    decreases |s|
  {
    if s != [] {
      assert s == [s[0]] + s[1..];
      AtCut(data, q, [s[0]], s[1..], q + 1);
      assert data[q] == s[0];
      DigitsEndAt(data, q + 1, s[1..], r);
    }
  }

  /** A literal int() accepts, written at pos and followed by a byte that
      neither continues its digits nor is a colon, is one pass of the loop
      through the third alternative. */
  lemma NumberLexes(data: Bytes, pos: nat, literal: Bytes, end: nat)
    requires At(data, pos, literal) && end == pos + |literal| && ParseInt(literal).Some?
    requires end < |data| && !IsDigit(data[end]) && data[end] != COLON
    ensures pos < |data| && Lex(data, pos) == Success(Lexeme([literal], end))
  {
    AtSlice(data, pos, literal);
    assert data[pos] == literal[0];
    if literal[0] == MINUS {
      assert literal == [MINUS] + literal[1..];
      AtCut(data, pos, [MINUS], literal[1..], pos + 1);
      DigitsEndAt(data, pos + 1, literal[1..], end);
      assert data[pos + 1] == literal[1..][0];
    } else {
      DigitsEndAt(data, pos, literal, end);
    }
  }

  /** A byte string the encoder wrote is one pass of the loop through the
      second alternative: `s`, then exactly the payload. */
  lemma StringLexes(data: Bytes, pos: nat, b: Bytes, end: nat)
    requires At(data, pos, EncodeString(b)) && end == pos + |EncodeString(b)|
    ensures pos < |data|
    ensures Lex(data, pos) == Success(Lexeme([[CHAR_S], b], end))
  {
    var prefix := Digits(|b|);
    var colon := pos + |prefix|;
    var start := colon + 1;
    assert EncodeString(b) == (prefix + [COLON]) + b;
    AtCut(data, pos, prefix + [COLON], b, start);
    AtCut(data, pos, prefix, [COLON], colon);
    assert data[colon] == [COLON][0];
    DigitsEndAt(data, pos, prefix, colon);
    AtSlice(data, pos, prefix);
    AtSlice(data, start, b);
    assert data[pos] == prefix[0];
    assert Min(start + |b|, |data|) == end;
  }

  /** A marker byte is a pass of its own (the first alternative). */
  lemma ScanMarker(data: Bytes, pos: nat, c: Byte, next: nat)
    requires pos < |data| && data[pos] == c && (c == CHAR_I || c == CHAR_L || c == CHAR_D || c == CHAR_E)
    requires next == pos + 1
    ensures Scan(data, pos) == Then([[c]], Scan(data, next))
  {
    ScanStep(data, pos, Lexeme([[c]], next));
  }

  /** The generator over a byte string the encoder wrote. */
  lemma ScanString(data: Bytes, pos: nat, b: Bytes, end: nat)
    requires At(data, pos, EncodeString(b)) && end == pos + |EncodeString(b)|
    ensures Scan(data, pos) == Then([[CHAR_S], b], Scan(data, end))
  {
    StringLexes(data, pos, b, end);
    ScanStep(data, pos, Lexeme([[CHAR_S], b], end));
  }

  /** The generator over `i`, a literal int() accepts, and `e`: three
      passes of the loop. */
  lemma ScanNumber(data: Bytes, pos: nat, literal: Bytes, end: nat)
    requires At(data, pos, [CHAR_I] + literal + [CHAR_E]) && end == pos + |literal| + 2
    requires ParseInt(literal).Some?
    ensures Scan(data, pos) == Then([[CHAR_I], literal, [CHAR_E]], Scan(data, end))
  {
    var inner, close := pos + 1, end - 1;
    Framed(data, pos, CHAR_I, literal, inner, close);
    NumberLexes(data, inner, literal, close);
    ScanStep(data, inner, Lexeme([literal], close));
    ScanCompound(data, pos, CHAR_I, inner, close, end, [literal]);
  }

  /** Where the encoding of a canonical value v is written, from pos to end,
      the generator yields the tokens of v and then carries on from end. */
  lemma {:induction false} ScanValue(data: Bytes, pos: nat, v: Value, end: nat)
    requires Canonical(v) && At(data, pos, Encode(v)) && end == pos + |Encode(v)|
    ensures Scan(data, pos) == Then(Tokens(v), Scan(data, end))
    decreases v, 2
  {
    match v
    case Int(n) =>
      assert Encode(v) == [CHAR_I] + DecimalInt(n) + [CHAR_E];
      ScanNumber(data, pos, DecimalInt(n), end);
    case Str(b) =>
      ScanString(data, pos, b, end);
    case List(xs) =>
      ScanList(data, pos, xs, end);
    case Dict(es) =>
      ScanDict(data, pos, es, end);
  }

  lemma {:induction false} ScanList(data: Bytes, pos: nat, xs: seq<Value>, end: nat)
    requires Canonical(List(xs)) && At(data, pos, Encode(List(xs))) && end == pos + |Encode(List(xs))|
    ensures Scan(data, pos) == Then(Tokens(List(xs)), Scan(data, end))
    decreases xs, 1
  {
    var body := EncodeAll(xs);
    assert Encode(List(xs)) == [CHAR_L] + body + [CHAR_E];
    var inner, close := pos + 1, end - 1;
    Framed(data, pos, CHAR_L, body, inner, close);
    ScanAll(data, inner, xs, close);
    ScanCompound(data, pos, CHAR_L, inner, close, end, TokensAll(xs));
    assert Tokens(List(xs)) == [[CHAR_L]] + TokensAll(xs) + [[CHAR_E]];
  }

  lemma {:induction false} ScanDict(data: Bytes, pos: nat, es: seq<Entry<Value>>, end: nat)
    requires Canonical(Dict(es)) && At(data, pos, Encode(Dict(es))) && end == pos + |Encode(Dict(es))|
    ensures Scan(data, pos) == Then(Tokens(Dict(es)), Scan(data, end))
    decreases es, 1
  {
    EncodeCanonicalDict(es);
    var body := Join(EncodeValues(es));
    var inner, close := pos + 1, end - 1;
    Framed(data, pos, CHAR_D, body, inner, close);
    ScanEntries(data, inner, es, close);
    ScanCompound(data, pos, CHAR_D, inner, close, end, TokensEntries(es));
    assert Tokens(Dict(es)) == [[CHAR_D]] + TokensEntries(es) + [[CHAR_E]];
  }

  /** A marker written at pos, a body from inner that yields ts, and `e` at
      close: the marker's token, ts, then `e`. */
  lemma ScanCompound(data: Bytes, pos: nat, c: Byte, inner: nat, close: nat, end: nat, ts: seq<Bytes>)
    requires inner == pos + 1 && inner <= close < |data| && end == close + 1
    requires data[pos] == c && data[close] == CHAR_E
    requires c == CHAR_I || c == CHAR_L || c == CHAR_D
    requires Scan(data, inner) == Then(ts, Scan(data, close))
    ensures Scan(data, pos) == Then([[c]] + ts + [[CHAR_E]], Scan(data, end))
  {
    ScanMarker(data, pos, c, inner);
    ScanMarker(data, close, CHAR_E, end);
    ThenThen(ts, [[CHAR_E]], Scan(data, end));
    ThenThen([[c]], ts + [[CHAR_E]], Scan(data, end));
    assert [[c]] + (ts + [[CHAR_E]]) == [[c]] + ts + [[CHAR_E]];
  }

  lemma {:induction false} ScanAll(data: Bytes, pos: nat, xs: seq<Value>, end: nat)
    requires forall j :: 0 <= j < |xs| ==> Canonical(xs[j])
    requires At(data, pos, EncodeAll(xs)) && end == pos + |EncodeAll(xs)|
    ensures Scan(data, pos) == Then(TokensAll(xs), Scan(data, end))
    decreases xs, 0
  {
    if xs == [] {
      ThenNothing(Scan(data, pos));
    } else {
      assert EncodeAll(xs) == Encode(xs[0]) + EncodeAll(xs[1..]);
      var mid := pos + |Encode(xs[0])|;
      AtCut(data, pos, Encode(xs[0]), EncodeAll(xs[1..]), mid);
      ScanValue(data, pos, xs[0], mid);
      ScanAll(data, mid, xs[1..], end);
      Chained(Tokens(xs[0]), TokensAll(xs[1..]), Scan(data, pos), Scan(data, mid), Scan(data, end));
      assert TokensAll(xs) == Tokens(xs[0]) + TokensAll(xs[1..]);
    }
  }

  lemma {:induction false} ScanEntries(data: Bytes, pos: nat, es: seq<Entry<Value>>, end: nat)
    requires forall j :: 0 <= j < |es| ==> Canonical(es[j].value)
    requires At(data, pos, Join(EncodeValues(es))) && end == pos + |Join(EncodeValues(es))|
    ensures Scan(data, pos) == Then(TokensEntries(es), Scan(data, end))
    decreases es, 0
  {
    if es == [] {
      ThenNothing(Scan(data, pos));
    } else {
      JoinFirst(es);
      var mid := pos + |EncodeString(es[0].key)|;
      var next := mid + |Encode(es[0].value)|;
      AtCut(data, pos, EncodeString(es[0].key) + Encode(es[0].value), Join(EncodeValues(es[1..])), next);
      AtCut(data, pos, EncodeString(es[0].key), Encode(es[0].value), mid);
      ScanString(data, pos, es[0].key, mid);
      ScanValue(data, mid, es[0].value, next);
      ScanEntries(data, next, es[1..], end);
      Chained([[CHAR_S], es[0].key], Tokens(es[0].value), Scan(data, pos), Scan(data, mid), Scan(data, next));
      Chained([[CHAR_S], es[0].key] + Tokens(es[0].value), TokensEntries(es[1..]),
        Scan(data, pos), Scan(data, next), Scan(data, end));
    }
  }

  /** The whole generator on the encoding of a canonical value: the value's
      tokens, then StopIteration. */
  lemma ScanEncoding(v: Value)
    requires Canonical(v)
    ensures Scan(Encode(v), 0) == Then(Tokens(v), Stream([], Exhausted))
  {
    ScanValue(Encode(v), 0, v, |Encode(v)|);
  }

  // ---------------------------------------------------------------------
  // The decoder on the tokens of a value

  /** The items the `d` branch collects for entries es before pairing them:
      each key as a byte string, then its value. */
  function Flatten(es: seq<Entry<Value>>): (r: seq<Value>)
    ensures |r| == 2 * |es|
    ensures forall j :: 0 <= j < |es| ==> r[2 * j] == Str(es[j].key) && r[2 * j + 1] == es[j].value
  {
    if es == [] then [] else [Str(es[0].key), es[0].value] + Flatten(es[1..])
  }

  /** Pairing up the flattened entries stores them one after the other:
      a repeated key keeps its first place and takes its last value. */
  lemma {:induction false} FromPairsFlatten(es: seq<Entry<Value>>, acc: seq<Entry<Value>>)
    ensures FromPairs(Flatten(es), acc) == Success(PutAll(acc, es))
    decreases |es|
  {
    if es != [] {
      assert Flatten(es)[2..] == Flatten(es[1..]);
      FromPairsFlatten(es[1..], Put(acc, es[0].key, es[0].value));
    }
  }

  /** The `s` branch: the payload token becomes a byte string. */
  lemma StringItem(b: Bytes, rest: Stream)
    ensures NextItem(Then([[CHAR_S], b], rest)) == Success(Decoded(Str(b), rest))
  {
    PullThen([[CHAR_S], b], rest);
    PullThen([b], rest);
    assert [[CHAR_S], b][1..] == [b] && [b][1..] == [];
    ThenNothing(rest);
  }

  /** The `i` branch: a token int() reads as n, followed by the `e` token,
      is the integer n. */
  lemma IntegerItem(literal: Bytes, n: int, rest: Stream)
    requires ParseInt(literal) == Some(n)
    ensures NextItem(Then([[CHAR_I], literal, [CHAR_E]], rest)) == Success(Decoded(Int(n), rest))
  {
    var ts: seq<Bytes> := [[CHAR_I], literal, [CHAR_E]];
    PullThen(ts, rest);
    PullThen(ts[1..], rest);
    PullThen(ts[1..][1..], rest);
    assert |ts[1..][1..][1..]| == 0;
    ThenNothing(rest);
  }

  /** Pulling the tokens of a well-formed value, whatever follows them,
      rebuilds the value and leaves the generator right after its last
      token. */
  lemma {:induction false} NextItemTokens(v: Value, rest: Stream)
    requires WellFormed(v)
    ensures NextItem(Then(Tokens(v), rest)) == Success(Decoded(v, rest))
    decreases v, 3
  {
    match v
    case Int(n) =>
      IntegerItem(DecimalInt(n), n, rest);
    case Str(b) =>
      StringItem(b, rest);
    case List(xs) =>
      var tail := Then([[CHAR_E]], rest);
      PullThen(Tokens(v), rest);
      DropFirst([CHAR_L], TokensAll(xs), [[CHAR_E]]);
      ThenThen(TokensAll(xs), [[CHAR_E]], rest);
      ElementsTokens(xs, [], tail);
      PullClose(rest);
      assert [] + xs == xs;
    case Dict(es) =>
      DictTokens(es, rest);
      assert [] + es == es;
      PutAllDistinct([], es);
  }

  /** The `d` branch over the tokens of any entries, a key repeated or
      not: the dictionary `d[k] = v` builds from them in order. */
  lemma {:induction false} DictTokens(es: seq<Entry<Value>>, rest: Stream)
    requires forall j :: 0 <= j < |es| ==> WellFormed(es[j].value)
    ensures NextItem(Then(Tokens(Dict(es)), rest)) == Success(Decoded(Dict(PutAll([], es)), rest))
    decreases es, 2
  {
    var tail := Then([[CHAR_E]], rest);
    var s := Then(Tokens(Dict(es)), rest);
    PullThen(Tokens(Dict(es)), rest);
    DropFirst([CHAR_D], TokensEntries(es), [[CHAR_E]]);
    ThenThen(TokensEntries(es), [[CHAR_E]], rest);
    EntriesTokens(es, [], tail);
    PullClose(rest);
    assert [] + Flatten(es) == Flatten(es);
    FromPairsFlatten(es, []);
    DictItem(s, rest, Flatten(es), PutAll([], es));
  }

  /** The `d` branch once the items are known: a dictionary of the pairs. */
  lemma DictItem(s: Stream, rest: Stream, items: seq<Value>, es: seq<Entry<Value>>)
    requires Pull(s) == Success([CHAR_D])
    requires Elements(Rest(s), []) == Success(Decoded(List(items), rest))
    requires FromPairs(items, []) == Success(es)
    ensures NextItem(s) == Success(Decoded(Dict(es), rest))
  {
  }

  /** The list loop over the tokens of xs appends xs. */
  lemma {:induction false} ElementsTokens(xs: seq<Value>, acc: seq<Value>, tail: Stream)
    requires forall j :: 0 <= j < |xs| ==> WellFormed(xs[j])
    ensures Elements(Then(TokensAll(xs), tail), acc) == Elements(tail, acc + xs)
    decreases xs, 1
  {
    if xs == [] {
      ThenNothing(tail);
      assert acc + xs == acc;
    } else {
      var after := Then(TokensAll(xs[1..]), tail);
      NextItemTokens(xs[0], after);
      ElementsTokens(xs[1..], acc + [xs[0]], tail);
      TokensStart(xs[0]);
      ElementsCons(xs[0], Tokens(xs[0]), TokensAll(xs[1..]), acc, tail, after);
      assert TokensAll(xs) == Tokens(xs[0]) + TokensAll(xs[1..]);
      AppendCons(acc, xs);
    }
  }

  /** The loop over the tokens of a dictionary's entries collects each key
      and then its value. */
  lemma {:induction false} EntriesTokens(es: seq<Entry<Value>>, acc: seq<Value>, tail: Stream)
    requires forall j :: 0 <= j < |es| ==> WellFormed(es[j].value)
    ensures Elements(Then(TokensEntries(es), tail), acc) == Elements(tail, acc + Flatten(es))
    decreases es, 1
  {
    if es == [] {
      ThenNothing(tail);
      assert acc + Flatten(es) == acc;
    } else {
      var e := es[0];
      var more := TokensEntries(es[1..]);
      var after := Then(more, tail);
      var mid := Then(Tokens(e.value) + more, tail);
      StringItem(e.key, mid);
      ElementsCons(Str(e.key), [[CHAR_S], e.key], Tokens(e.value) + more, acc, tail, mid);
      NextItemTokens(e.value, after);
      TokensStart(e.value);
      ElementsCons(e.value, Tokens(e.value), more, acc + [Str(e.key)], tail, after);
      EntriesTokens(es[1..], acc + [Str(e.key)] + [e.value], tail);
      EntryTokensFirst(es);
      FlattenFirst(es, acc);
    }
  }

  lemma EntryTokensFirst(es: seq<Entry<Value>>)
    requires es != []
    ensures TokensEntries(es) == [[CHAR_S], es[0].key] + (Tokens(es[0].value) + TokensEntries(es[1..]))
  {
  }

  lemma FlattenFirst(es: seq<Entry<Value>>, acc: seq<Value>)
    requires es != []
    ensures acc + [Str(es[0].key)] + [es[0].value] + Flatten(es[1..]) == acc + Flatten(es)
  {
  }

  /** One pass of the list loop over tokens ts that decode to x: x is
      appended, and the loop goes on with what follows ts. */
  lemma ElementsCons(x: Value, ts: seq<Bytes>, more: seq<Bytes>, acc: seq<Value>, tail: Stream, after: Stream)
    requires after == Then(more, tail) && ts != [] && ts[0] != [CHAR_E]
    requires NextItem(Then(ts, after)) == Success(Decoded(x, after))
    ensures Elements(Then(ts + more, tail), acc) == Elements(after, acc + [x])
  {
    var s := Then(ts, after);
    ThenThen(ts, more, tail);
    PullThen(ts, after);
    ElementsStep(s, acc, x, after);
  }

  lemma ElementsStep(s: Stream, acc: seq<Value>, x: Value, after: Stream)
    requires Pull(s).Success? && Pull(s).value != [CHAR_E]
    requires NextItem(s) == Success(Decoded(x, after))
    ensures Elements(s, acc) == Elements(after, acc + [x])
  {
  }

  /** decoder.py decodes what its encoder writes: for a canonical value
      (dictionaries already in key order), exactly the value. */
  lemma DocumentRoundTrip(v: Value)
    requires Canonical(v)
    ensures Document(Encode(v)) == Success(v)
  {
    var end := Stream([], Exhausted);
    ScanEncoding(v);
    CanonicalWellFormed(v);
    NextItemTokens(v, end);
  }

  /** For any value Python can hold, decoding the encoding gives the value
      with every dictionary in key order. */
  lemma DecodeEncode(v: Value)
    requires WellFormed(v)
    ensures Document(Encode(v)) == Success(Canonicalize(v))
  {
    CanonicalizeCanonical(v);
    EncodeCanonicalize(v);
    DocumentRoundTrip(Canonicalize(v));
  }

  /** Encoding what was decoded from an encoding writes the same bytes
      again. */
  lemma ReencodeStable(v: Value)
    requires WellFormed(v)
    ensures Document(Encode(v)).Success? && Encode(Document(Encode(v)).value) == Encode(v)
  {
    DecodeEncode(v);
    EncodeCanonicalize(v);
  }

  /** On every encoding the encoder writes, the two decoders agree. */
  lemma DecodersAgree(v: Value)
    requires WellFormed(v)
    ensures Document(Encode(v)) == Strict.Document(Encode(v))
  {
    DecodeEncode(v);
    Strict.DecodeEncode(v);
  }

  // ---------------------------------------------------------------------
  // What `decode` raises

  /** The generator stops with StopIteration at the end of the text, or
      with the SyntaxError of a position no alternative matches. */
  lemma {:induction false} ScanStop(data: Bytes, i: nat)
    ensures Scan(data, i).stop == Exhausted || Scan(data, i).stop.NoMatch?
    decreases |data| - i
  {
    if i < |data| {
      match Lex(data, i)
      case Failure(_) =>
      case Success(lx) => ScanStop(data, lx.next);
    }
  }

  /** Whatever goes wrong in `decode`, the caller sees SyntaxError, unless
      a dictionary key cannot be hashed, which lets TypeError through. */
  lemma DocumentRaises(data: Bytes)
    ensures Document(data).Failure? ==>
      Surfaced(Document(data).error) == SyntaxError || Document(data).error.KeyNotBytes?
  {
    ScanStop(data, 0);
  }

  // ---------------------------------------------------------------------
  // Inputs the code treats differently from the bencode grammar

  /** `i`, then any text int() accepts (leading zeros, `-0`), then `e`:
      the integer int() reads. */
  lemma AcceptedInteger(data: Bytes, literal: Bytes, n: int)
    requires data == [CHAR_I] + literal + [CHAR_E] && ParseInt(literal) == Some(n)
    ensures Document(data) == Success(Int(n))
  {
    AtWhole(data);
    ScanNumber(data, 0, literal, |data|);
    IntegerItem(literal, n, Stream([], Exhausted));
  }

  /** `i03e` is the integer 3. */
  lemma AcceptsLeadingZero()
    ensures Document([CHAR_I, ZERO, ZERO + 3, CHAR_E]) == Success(Int(3))
  {
    var literal: Bytes := [ZERO, ZERO + 3];
    assert literal[..1] == [ZERO] && [ZERO][..0] == [];
    assert ParseNat([ZERO]) == 0;
    assert ParseNat(literal) == 3;
    assert [CHAR_I] + literal + [CHAR_E] == [CHAR_I, ZERO, ZERO + 3, CHAR_E];
    AcceptedInteger([CHAR_I, ZERO, ZERO + 3, CHAR_E], literal, 3);
  }

  /** `i-0e` is the integer 0. */
  lemma AcceptsNegativeZero()
    ensures Document([CHAR_I, MINUS, ZERO, CHAR_E]) == Success(Int(0))
  {
    var literal: Bytes := [MINUS, ZERO];
    assert literal[1..] == [ZERO] && [ZERO][..0] == [];
    assert ParseNat([ZERO]) == 0;
    assert [CHAR_I] + literal + [CHAR_E] == [CHAR_I, MINUS, ZERO, CHAR_E];
    AcceptedInteger([CHAR_I, MINUS, ZERO, CHAR_E], literal, 0);
  }

  /** A length prefix longer than what is left: the slice takes what there
      is and the document is that shorter byte string. */
  lemma TruncatedString(data: Bytes, prefix: Bytes, payload: Bytes)
    requires At(data, 0, prefix + [COLON] + payload) && |data| == |prefix| + 1 + |payload|
    requires |prefix| >= 1 && AllDigits(prefix) && ParseNat(prefix) >= |payload|
    ensures Document(data) == Success(Str(payload))
  {
    var colon, start := |prefix|, |prefix| + 1;
    var next := start + ParseNat(prefix);
    TruncatedLayout(data, prefix, payload, colon, start);
    TruncatedLexes(data, prefix, payload, colon, start, next);
    ScanStep(data, 0, Lexeme([[CHAR_S], payload], next));
    StringItem(payload, Stream([], Exhausted));
  }

  /** The second alternative at 0 with a digit run ending at colon and the
      slice reaching the end of the data. */
  lemma TruncatedLexes(data: Bytes, prefix: Bytes, payload: Bytes, colon: nat, start: nat, next: nat)
    requires 0 < colon < |data| && IsDigit(data[0]) && data[colon] == COLON && DigitsEnd(data, 0) == colon
    requires data[0..colon] == prefix && AllDigits(prefix) && start == colon + 1
    requires next == start + ParseNat(prefix) && next >= |data| && data[start..|data|] == payload
    ensures Lex(data, 0) == Success(Lexeme([[CHAR_S], payload], next))
  {
    StringBranch(data, 0, colon);
    assert Min(next, |data|) == |data|;
  }

  /** The second alternative: a digit run ending at a colon. */
  lemma StringBranch(data: Bytes, i: nat, j: nat)
    requires i < |data| && IsDigit(data[i]) && j == DigitsEnd(data, i) && j < |data| && data[j] == COLON
    ensures Lex(data, i) == Success(Lexeme([[CHAR_S], data[j + 1..Min(j + 1 + ParseNat(data[i..j]), |data|)]],
                                           j + 1 + ParseNat(data[i..j])))
  {
    var c := data[i];
    assert c != CHAR_I && c != CHAR_D && c != CHAR_E && c != CHAR_L && IsDigit(c);
    assert AllDigits(data[i..j]) by {
      forall k | 0 <= k < j - i ensures IsDigit(data[i..j][k]) {
        assert data[i..j][k] == data[i + k];
      }
    }
  }

  lemma TruncatedLayout(data: Bytes, prefix: Bytes, payload: Bytes, colon: nat, start: nat)
    requires At(data, 0, prefix + [COLON] + payload) && |data| == |prefix| + 1 + |payload|
    requires |prefix| >= 1 && AllDigits(prefix)
    requires colon == |prefix| && start == colon + 1
    ensures 0 < colon < |data| && IsDigit(data[0]) && data[colon] == COLON && DigitsEnd(data, 0) == colon
    ensures data[0..colon] == prefix && data[start..|data|] == payload
  {
    AtCut(data, 0, prefix + [COLON], payload, start);
    AtCut(data, 0, prefix, [COLON], colon);
    assert data[colon] == [COLON][0];
    DigitsEndAt(data, 0, prefix, colon);
    AtSlice(data, 0, prefix);
    AtSlice(data, start, payload);
    assert data[0] == prefix[0];
  }

  /** `5:ab` is the byte string `ab`. */
  lemma TruncatedExample()
    ensures Document([ZERO + 5, COLON, 0x61, 0x62]) == Success(Str([0x61, 0x62]))
  {
    var data: Bytes := [ZERO + 5, COLON, 0x61, 0x62];
    var prefix: Bytes := [ZERO + 5];
    assert prefix[..0] == [];
    assert ParseNat(prefix) == 5;
    assert data == prefix + [COLON] + [0x61, 0x62];
    AtWhole(data);
    TruncatedString(data, prefix, [0x61, 0x62]);
  }

  /** A `-` not followed by a digit matches no alternative: `i-e` raises
      SyntaxError at offset 1. */
  lemma LoneMinus()
    ensures Document([CHAR_I, MINUS, CHAR_E]) == Failure(NoMatch(1))
    ensures Surfaced(NoMatch(1)) == SyntaxError
  {
    var data: Bytes := [CHAR_I, MINUS, CHAR_E];
    ScanFails(data, 1, NoMatch(1));
    ScanMarker(data, 0, CHAR_I, 1);
    PullThen([[CHAR_I]], Scan(data, 1));
  }

  /** The `i` branch pulls the literal and then one more token; anything
      but `e` there raises ValueError ("Invalid integer termination"). */
  lemma UnterminatedIntegerTokens(number: Bytes, t: Bytes, rest: Stream)
    requires ParseInt(number).Some? && t != [CHAR_E]
    ensures NextItem(Then([[CHAR_I], number, t], rest)) == Failure(BadTermination)
  {
    PullThen([[CHAR_I], number, t], rest);
    assert [[CHAR_I], number, t][1..] == [number, t];
    PullThen([number, t], rest);
    assert [number, t][1..] == [t];
    PullThen([t], rest);
  }

  /** An integer token followed by anything but `e` raises ValueError:
      `i5le`. */
  lemma UnterminatedInteger()
    ensures Document([CHAR_I, ZERO + 5, CHAR_L, CHAR_E]) == Failure(BadTermination)
  {
    var data: Bytes := [CHAR_I, ZERO + 5, CHAR_L, CHAR_E];
    var literal: Bytes := [ZERO + 5];
    assert literal[..0] == [];
    assert At(data, 1, literal);
    NumberLexes(data, 1, literal, 2);
    ScanStep(data, 1, Lexeme([literal], 2));
    ScanMarker(data, 0, CHAR_I, 1);
    ScanMarker(data, 2, CHAR_L, 3);
    ScanMarker(data, 3, CHAR_E, 4);
    var ts: seq<Bytes> := [[CHAR_I], literal, [CHAR_L], [CHAR_E]];
    var done := Stream([], Exhausted);
    assert Scan(data, 0) == Stream(ts, Exhausted);
    assert NextItem(Stream(ts, Exhausted)) == Failure(BadTermination);
  }

  /** A dictionary is its items read as a list and then paired up. */
  lemma {:induction false} DictOfItems(xs: seq<Value>)
    requires forall j :: 0 <= j < |xs| ==> Canonical(xs[j])
    ensures Document([CHAR_D] + EncodeAll(xs) + [CHAR_E]) ==
      match FromPairs(xs, [])
      case Success(es) => Success(Dict(es))
      case Failure(e) => Failure(e)
  {
    var data := [CHAR_D] + EncodeAll(xs) + [CHAR_E];
    var close, end := 1 + |EncodeAll(xs)|, |data|;
    var done := Stream([], Exhausted);
    AtWhole(data);
    Framed(data, 0, CHAR_D, EncodeAll(xs), 1, close);
    ScanAll(data, 1, xs, close);
    ScanCompound(data, 0, CHAR_D, 1, close, end, TokensAll(xs));
    forall j | 0 <= j < |xs| ensures WellFormed(xs[j]) {
      CanonicalWellFormed(xs[j]);
    }
    var s := Then([[CHAR_D]] + TokensAll(xs) + [[CHAR_E]], done);
    var tail := Then([[CHAR_E]], done);
    PullThen([[CHAR_D]] + TokensAll(xs) + [[CHAR_E]], done);
    DropFirst([CHAR_D], TokensAll(xs), [[CHAR_E]]);
    ThenThen(TokensAll(xs), [[CHAR_E]], done);
    ElementsTokens(xs, [], tail);
    PullClose(done);
    assert [] + xs == xs;
    match FromPairs(xs, [])
    case Success(es) => DictItem(s, done, xs, es);
    case Failure(e) => DictFails(s, done, xs, e);
  }

  lemma DictFails(s: Stream, rest: Stream, items: seq<Value>, e: Error)
    requires Pull(s) == Success([CHAR_D])
    requires Elements(Rest(s), []) == Success(Decoded(List(items), rest))
    requires FromPairs(items, []) == Failure(e)
    ensures NextItem(s) == Failure(e)
  {
  }

  /** An odd number of items: the last key is dropped. */
  lemma {:induction false} FromPairsOdd(items: seq<Value>, acc: seq<Entry<Value>>)
    requires |items| % 2 == 1
    ensures FromPairs(items, acc) == FromPairs(items[..|items| - 1], acc)
    decreases |items|
  {
    if |items| > 1 {
      assert items[..|items| - 1][2..] == items[2..][..|items| - 3];
      FromPairsOdd(items[2..], if items[0].Str? then Put(acc, items[0].bytes, items[1]) else acc);
    }
  }

  /** `d1:ae`: a key without a value is dropped, and the document is the
      empty dictionary. */
  lemma UnpairedKey()
    ensures Document([CHAR_D, ZERO + 1, COLON, 0x61, CHAR_E]) == Success(Dict([]))
  {
    var xs := [Str([0x61])];
    assert Digits(1) == [ZERO + 1];
    assert Encode(xs[0]) == [ZERO + 1, COLON, 0x61];
    assert EncodeAll(xs) == Encode(xs[0]) + EncodeAll(xs[1..]);
    assert [CHAR_D] + EncodeAll(xs) + [CHAR_E] == [CHAR_D, ZERO + 1, COLON, 0x61, CHAR_E];
    assert FromPairs(xs, []) == Success([]);
    DictOfItems(xs);
  }

  /** `dlei2ee`: a list as a key is not hashable and raises TypeError. */
  lemma UnhashableKey()
    ensures Document([CHAR_D, CHAR_L, CHAR_E, CHAR_I, ZERO + 2, CHAR_E, CHAR_E]) == Failure(KeyNotBytes(List([])))
    ensures Surfaced(KeyNotBytes(List([]))) == TypeError
  {
    var xs := [List([]), Int(2)];
    assert DecimalInt(2) == [ZERO + 2];
    assert Encode(Int(2)) == [CHAR_I, ZERO + 2, CHAR_E];
    assert Encode(List([])) == [CHAR_L, CHAR_E];
    assert xs[1..][1..] == [];
    assert EncodeAll(xs[1..]) == Encode(Int(2)) + EncodeAll([]);
    assert EncodeAll(xs) == Encode(List([])) + EncodeAll(xs[1..]);
    assert [CHAR_D] + EncodeAll(xs) + [CHAR_E] == [CHAR_D, CHAR_L, CHAR_E, CHAR_I, ZERO + 2, CHAR_E, CHAR_E];
    assert FromPairs(xs, []) == Failure(KeyNotBytes(List([])));
    DictOfItems(xs);
  }

  /** A key given twice keeps the value given last. */
  lemma DuplicateKeyLastWins(k: Bytes, v1: Value, v2: Value, rest: Stream)
    requires WellFormed(v1) && WellFormed(v2)
    ensures NextItem(Then(Tokens(Dict([Entry(k, v1), Entry(k, v2)])), rest)) ==
      Success(Decoded(Dict([Entry(k, v2)]), rest))
  {
    DictTokens([Entry(k, v1), Entry(k, v2)], rest);
    PutTwice(k, v1, v2);
  }

  /** A second value after the first one raises SyntaxError. */
  lemma TrailingValue(v: Value, w: Value)
    requires Canonical(v) && Canonical(w)
    ensures Document(Encode(v) + Encode(w)) == Failure(TrailingData)
  {
    var data := Encode(v) + Encode(w);
    var mid, end := |Encode(v)|, |data|;
    AtWhole(data);
    AtCut(data, 0, Encode(v), Encode(w), mid);
    ScanValue(data, 0, v, mid);
    ScanValue(data, mid, w, end);
    CanonicalWellFormed(v);
    NextItemTokens(v, Scan(data, mid));
    TokensStart(w);
  }

  // ---------------------------------------------------------------------
  // The bytes `main` hands to SHA-1

  /** `str.encode()` (UTF-8) of one latin-1 character: the code point is
      the byte, and from 0x80 up it takes two bytes. */
  function Utf8Char(b: Byte): (r: Bytes)
    ensures b < 0x80 ==> r == [b]
    ensures b >= 0x80 ==> |r| == 2 && 0xC2 <= r[0] <= 0xC3 && 0x80 <= r[1] < 0xC0
    ensures b >= 0x80 ==> (r[0] - 0xC0) * 64 + (r[1] - 0x80) == b
  {
    if b < 0x80 then [b] else [0xC0 + b / 64, 0x80 + b % 64]
  }

  /** `str.encode()` of latin-1 text. */
  function Utf8(s: Bytes): (r: Bytes)
    ensures |r| >= |s|
  {
    if s == [] then [] else Utf8Char(s[0]) + Utf8(s[1..])
  }

  predicate Ascii(s: Bytes) {
    forall k :: 0 <= k < |s| ==> s[k] < 0x80
  }

  /** Every byte string and key in v is ASCII text. */
  predicate AsciiValue(v: Value)
    decreases v
  {
    match v
    case Int(_) => true
    case Str(s) => Ascii(s)
    case List(xs) => forall j :: 0 <= j < |xs| ==> AsciiValue(xs[j])
    case Dict(es) => forall j :: 0 <= j < |es| ==> Ascii(es[j].key) && AsciiValue(es[j].value)
  }

  /** `encode` as decoder.py's `main` calls it, on what `decode` built from
      latin-1 text: every string is a `str`, so its branch `encode(obj.encode())`
      writes the UTF-8 of the text; dictionaries are sorted by their `str`
      keys, each key then written the same way. */
  function TextEncode(v: Value): Bytes
    decreases v, 2
  {
    match v
    case Int(n) => [CHAR_I] + DecimalInt(n) + [CHAR_E]
    case Str(s) => EncodeString(Utf8(s))
    case List(xs) => [CHAR_L] + TextEncodeAll(xs) + [CHAR_E]
    case Dict(es) => [CHAR_D] + Join(Utf8Keys(SortByKey(TextEncodeValues(es)))) + [CHAR_E]
  }

  function TextEncodeAll(xs: seq<Value>): Bytes
    decreases xs, 0
  {
    if xs == [] then [] else TextEncode(xs[0]) + TextEncodeAll(xs[1..])
  }

  function TextEncodeValues(es: seq<Entry<Value>>): (r: seq<Entry<Bytes>>)
    ensures |r| == |es|
    ensures forall j :: 0 <= j < |es| ==> r[j].key == es[j].key
    decreases es, 0
  {
    if es == [] then [] else [Entry(es[0].key, TextEncode(es[0].value))] + TextEncodeValues(es[1..])
  }

  /** Each sorted key as the `encode(k)` of a `str` key sees it. */
  function Utf8Keys(ps: seq<Entry<Bytes>>): (r: seq<Entry<Bytes>>)
    ensures |r| == |ps|
  {
    if ps == [] then [] else [Entry(Utf8(ps[0].key), ps[0].value)] + Utf8Keys(ps[1..])
  }

  /** UTF-8 leaves ASCII text as it is. */
  lemma {:induction false} Utf8Ascii(s: Bytes)
    requires Ascii(s)
    ensures Utf8(s) == s
  {
    if s != [] {
      Utf8Ascii(s[1..]);
      assert [s[0]] + s[1..] == s;
    }
  }

  /** Text with a character from 0x80 up grows under UTF-8. */
  lemma {:induction false} Utf8Grows(s: Bytes, k: nat)
    requires k < |s| && s[k] >= 0x80
    ensures |Utf8(s)| > |s|
  {
    if k > 0 {
      Utf8Grows(s[1..], k - 1);
    }
  }

  lemma {:induction false} Utf8KeysAscii(ps: seq<Entry<Bytes>>)
    requires forall j :: 0 <= j < |ps| ==> Ascii(ps[j].key)
    ensures Utf8Keys(ps) == ps
  {
    if ps != [] {
      Utf8Ascii(ps[0].key);
      Utf8KeysAscii(ps[1..]);
      assert [ps[0]] + ps[1..] == ps;
    }
  }

  /** On ASCII text the as-written encoding is the byte encoding. */
  lemma {:induction false} TextEncodeAscii(v: Value)
    requires AsciiValue(v)
    ensures TextEncode(v) == Encode(v)
    decreases v, 2
  {
    match v
    case Int(_) =>
    case Str(s) =>
      Utf8Ascii(s);
    case List(xs) =>
      TextEncodeAllAscii(xs);
    case Dict(es) =>
      TextEncodeValuesAscii(es);
      var sorted := SortByKey(EncodeValues(es));
      SortPermutes(EncodeValues(es));
      forall j | 0 <= j < |sorted| ensures Ascii(sorted[j].key) {
        assert sorted[j] in multiset(EncodeValues(es));
        var k :| 0 <= k < |EncodeValues(es)| && EncodeValues(es)[k] == sorted[j];
        assert Ascii(es[k].key);
      }
      Utf8KeysAscii(sorted);
  }

  lemma {:induction false} TextEncodeAllAscii(xs: seq<Value>)
    requires forall j :: 0 <= j < |xs| ==> AsciiValue(xs[j])
    ensures TextEncodeAll(xs) == EncodeAll(xs)
    decreases xs, 1
  {
    if xs != [] {
      TextEncodeAscii(xs[0]);
      TextEncodeAllAscii(xs[1..]);
    }
  }

  lemma {:induction false} TextEncodeValuesAscii(es: seq<Entry<Value>>)
    requires forall j :: 0 <= j < |es| ==> AsciiValue(es[j].value)
    ensures TextEncodeValues(es) == EncodeValues(es)
    decreases es, 1
  {
    if es != [] {
      TextEncodeAscii(es[0].value);
      TextEncodeValuesAscii(es[1..]);
    }
  }

  /** What `main` hashes, as written: `encode(torrent["info"])` of the
      torrent decoded from latin-1 text. */
  function InfoHashInputAsWritten(data: Bytes): (r: Result<Bytes, Error>) {
    match Document(data)
    case Failure(e) => Failure(e)
    case Success(torrent) =>
      match SelectInfo(torrent)
      case Failure(e) => Failure(e)
      case Success(info) => Success(TextEncode(info))
  }

  /** What `main` evidently means to hash: the info value encoded back to
      the bytes of the file, each latin-1 character as its one byte. */
  function InfoHashInput(data: Bytes): (r: Result<Bytes, Error>) {
    match Document(data)
    case Failure(e) => Failure(e)
    case Success(torrent) =>
      match SelectInfo(torrent)
      case Failure(e) => Failure(e)
      case Success(info) => Success(Encode(info))
  }

  /** For a torrent file written by the encoder, the corrected hash input is
      the encoding of the info value stored in it, as bendecode.py finds. */
  lemma InfoHashOfEncoding(torrent: Value, info: Value)
    requires Canonical(torrent) && torrent.Dict? && Entry(INFO, info) in torrent.entries
    ensures InfoHashInput(Encode(torrent)) == Success(Encode(info))
    ensures InfoHashInput(Encode(torrent)) == Strict.InfoHashInput(Encode(torrent))
  {
    DocumentRoundTrip(torrent);
    AscendingDistinct(torrent.entries);
    LookupDistinct(torrent.entries, INFO, info);
    Strict.InfoHashOfEncoding(torrent, info);
  }

  /** A torrent file without an info key is refused with
      InvalidFileException. */
  lemma InfoHashMissing(torrent: Value)
    requires Canonical(torrent) && torrent.Dict? && Absent(torrent.entries, INFO)
    ensures InfoHashInputAsWritten(Encode(torrent)) == Failure(MissingInfo)
    ensures InfoHashInput(Encode(torrent)) == Failure(MissingInfo)
  {
    DocumentRoundTrip(torrent);
  }

  /** Where the info value is ASCII throughout, the code as written hashes
      the intended bytes. */
  lemma InfoHashAscii(data: Bytes)
    requires Document(data).Success? && SelectInfo(Document(data).value).Success?
    requires AsciiValue(SelectInfo(Document(data).value).value)
    ensures InfoHashInputAsWritten(data) == InfoHashInput(data)
  {
    TextEncodeAscii(SelectInfo(Document(data).value).value);
  }

  /** `d4:infod1:x1:\xffee`: the info value holds the byte 0xFF, which the
      code as written hashes as the two bytes C3 BF of its UTF-8, so the
      hash is not that of the info dictionary in the file. */
  lemma InfoHashCorrupted()
    ensures Encode(CorruptedTorrent()) == [CHAR_D, ZERO + 4, COLON] + INFO +
      [CHAR_D, ZERO + 1, COLON, 0x78, ZERO + 1, COLON, 0xFF, CHAR_E, CHAR_E]
    ensures InfoHashInputAsWritten(Encode(CorruptedTorrent())) ==
      Success([CHAR_D, ZERO + 1, COLON, 0x78, ZERO + 2, COLON, 0xC3, 0xBF, CHAR_E])
    ensures InfoHashInput(Encode(CorruptedTorrent())) ==
      Success([CHAR_D, ZERO + 1, COLON, 0x78, ZERO + 1, COLON, 0xFF, CHAR_E])
  {
    var info := Dict([Entry([0x78], Str([0xFF]))]);
    var torrent := CorruptedTorrent();
    InfoEncoding(info);
    TorrentEncoding(torrent, info);
    InfoTextEncoding(info);
    assert SelectInfo(torrent) == Success(info) by {
      assert Lookup(torrent.entries, INFO) == Some(info);
    }
    assert Document(Encode(torrent)) == Success(torrent) by {
      DocumentRoundTrip(torrent);
    }
    InfoHashOf(Encode(torrent), torrent, info);
  }

  /** Both hash inputs once the torrent and its info value are known. */
  lemma InfoHashOf(data: Bytes, torrent: Value, info: Value)
    requires Document(data) == Success(torrent) && SelectInfo(torrent) == Success(info)
    ensures InfoHashInputAsWritten(data) == Success(TextEncode(info))
    ensures InfoHashInput(data) == Success(Encode(info))
  {
  }

  function CorruptedTorrent(): Value {
    Dict([Entry(INFO, Dict([Entry([0x78], Str([0xFF]))]))])
  }

  lemma InfoEncoding(info: Value)
    requires info == Dict([Entry([0x78], Str([0xFF]))])
    ensures Encode(info) == [CHAR_D, ZERO + 1, COLON, 0x78, ZERO + 1, COLON, 0xFF, CHAR_E]
  {
    assert Digits(1) == [ZERO + 1];
    EncodeCanonicalDict(info.entries);
    JoinFirst(info.entries);
  }

  lemma TorrentEncoding(torrent: Value, info: Value)
    requires torrent == Dict([Entry(INFO, info)])
    ensures Encode(torrent) == [CHAR_D, ZERO + 4, COLON] + INFO + Encode(info) + [CHAR_E]
  {
    var es := [Entry(INFO, info)];
    var key := EncodeString(INFO);
    var body := Encode(info);
    assert Encode(torrent) == [CHAR_D] + Join(EncodeValues(es)) + [CHAR_E] by {
      EncodeCanonicalDict(es);
    }
    assert Join(EncodeValues(es)) == key + body by {
      JoinFirst(es);
      assert es[1..] == [];
    }
    assert key == [ZERO + 4, COLON] + INFO by {
      assert Digits(4) == [ZERO + 4];
    }
    InfoFrame(key, body);
  }

  /** `d`, the info key, the info value's bytes, `e`. */
  lemma InfoFrame(key: Bytes, body: Bytes)
    requires key == [ZERO + 4, COLON] + INFO
    ensures [CHAR_D] + (key + body) + [CHAR_E] == [CHAR_D, ZERO + 4, COLON] + INFO + body + [CHAR_E]
  {
  }

  lemma InfoTextEncoding(info: Value)
    requires info == Dict([Entry([0x78], Str([0xFF]))])
    ensures TextEncode(info) == [CHAR_D, ZERO + 1, COLON, 0x78, ZERO + 2, COLON, 0xC3, 0xBF, CHAR_E]
  {
    assert Digits(1) == [ZERO + 1] && Digits(2) == [ZERO + 2];
    assert Utf8([0xFF]) == [0xC3, 0xBF];
    assert Utf8([0x78]) == [0x78];
    var ps := TextEncodeValues(info.entries);
    assert ps == [Entry([0x78], EncodeString([0xC3, 0xBF]))];
    assert SortByKey(ps) == ps;
    assert Utf8Keys(ps) == ps;
  }
}
