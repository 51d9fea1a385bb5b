/** bendecode.py: the byte-oriented, validating tokenizer and decoder, and
    the bytes its `main` hands to SHA-1.

    The tokenizer is a Python generator that the decoder pulls one token
    at a time. Scan gives everything the generator yields and what it
    raises at the end (a Stream); the decoder functions pull from it by
    index, exactly as `decode_item` calls `next_token`, so which error
    surfaces first is the one the source raises first. The class
    Tokenizer is the generator itself, resumed one `next()` at a time. */
module Strict {
  import opened Codec

  // ---------------------------------------------------------------------
  // The token generator (`tokenize`)

  /** `bytes.lstrip(b"-")`: s without its leading minus signs. */
  function StripMinus(s: Bytes): (r: Bytes)
    ensures |r| <= |s| && r == s[|s| - |r|..]
    ensures r == [] || r[0] != MINUS
    ensures forall k :: 0 <= k < |s| - |r| ==> s[k] == MINUS
  {
    if |s| > 0 && s[0] == MINUS then StripMinus(s[1..]) else s
  }

  /** The tokenizer's check on the text between `i` and `e`: it refuses
      the empty text, a lone minus sign, and text whose digits (after the
      minus signs) start with 0 and are longer than one byte. */
  predicate LiteralAccepted(number: Bytes) {
    var m := StripMinus(number);
    !(number == [] || number == [MINUS] || (|m| > 0 && m[0] == ZERO && |m| > 1))
  }

  /** One pass of the `while` loop body at offset i < len(data): the tokens
      it yields, or the exception it raises before yielding anything. */
  function Lex(data: Bytes, i: nat): (r: Result<Lexeme, Error>)
    requires i < |data|
    ensures r.Success? ==> i < r.value.next <= |data| && r.value.tokens != []
  {
    var c := data[i];
    if c == CHAR_I then LexInteger(data, i)
    else if c == CHAR_L || c == CHAR_D || c == CHAR_E then Success(Lexeme([[c]], i + 1))
    else if IsDigit(c) then LexString(data, i)
    else Failure(UnexpectedCharacter(c, i))
  }

  /** The `i` branch: the text up to the first `e` after it, if the check
      accepts it. */
  function LexInteger(data: Bytes, i: nat): (r: Result<Lexeme, Error>)
    requires i < |data|
    ensures r.Success? ==> i < r.value.next <= |data| && |r.value.tokens| == 3
  {
    match IndexOf(data, CHAR_E, i + 1)
    case None => Failure(NotFound(CHAR_E, i + 1))
    case Some(end) =>
      var number := data[i + 1..end];
      if LiteralAccepted(number) then Success(Lexeme([[CHAR_I], number, [CHAR_E]], end + 1))
      else Failure(InvalidInteger(number))
  }

  /** The digit branch: a length prefix of digits up to the first colon,
      then that many bytes, all of which must be there. */
  function LexString(data: Bytes, i: nat): (r: Result<Lexeme, Error>)
    requires i < |data|
    ensures r.Success? ==> i < r.value.next <= |data| && |r.value.tokens| == 2
  {
    match IndexOf(data, COLON, i)
    case None => Failure(NotFound(COLON, i))
    case Some(colon) =>
      var prefix := data[i..colon];
      if colon == i || !AllDigits(prefix) then Failure(InvalidLengthPrefix(prefix))
      else
        var end := colon + 1 + ParseNat(prefix);
        if end > |data| then Failure(TruncatedString)
        else Success(Lexeme([[CHAR_S], data[colon + 1..end]], end))
  }

  /** The generator started at offset i, run to the end. */
  function Scan(data: Bytes, i: nat): Stream
    decreases |data| - i, 1
  {
    if i >= |data| then Stream([], Exhausted) else Pass(data, i)
  }

  /** One pass of the loop at i < len(data), then the loop from where the
      pass leaves i. */
  function Pass(data: Bytes, i: nat): Stream
    requires i < |data|
    decreases |data| - i, 0
  {
    match Lex(data, i)
    case Failure(e) => Stream([], e)
    case Success(lx) => Then(lx.tokens, Scan(data, lx.next))
  }

  /** The generator as a class: `data` is the buffer it was created on,
      `pos` the loop offset `i`, and `pending` the tokens of the current
      pass of the loop not yielded yet. */
  class Tokenizer {
    const data: Bytes
    var pos: nat
    var pending: seq<Bytes>

    /** What the generator will still yield and raise. */
    ghost function Remaining(): Stream
      reads this
    {
      Then(pending, Scan(data, pos))
    }

    /** `tokenize(data)`: a generator that has not started. */
    constructor(data: Bytes)
      ensures this.data == data && Remaining() == Scan(data, 0)
    {
      this.data := data;
      pos := 0;
      pending := [];
    }

    /** `next(tokens)`: resume the loop until the next `yield`. */
    method Next() returns (p: Result<Bytes, Error>)
      modifies this
      ensures p == Pull(old(Remaining()))
      ensures Remaining() == Rest(old(Remaining()))
    {
      if pending != [] {
        PullThen(pending, Scan(data, pos));
        p := Success(pending[0]);
        pending := pending[1..];
      } else if pos >= |data| {
        ThenNothing(Scan(data, pos));
        p := Failure(Exhausted);
      } else {
        ThenNothing(Scan(data, pos));
        var lexed := LexAt(data, pos);
        if lexed.Failure? {
          ScanFails(data, pos, lexed.error);
          p := Failure(lexed.error);
        } else {
          var lx := lexed.value;
          ScanStep(data, pos, lx);
          PullThen(lx.tokens, Scan(data, lx.next));
          p := Success(lx.tokens[0]);
          pos, pending := lx.next, lx.tokens[1..];
        }
      }
    }
  }

  /** A pass that yields lx.tokens is followed by the scan from where it
      stopped. */
  lemma ScanStep(data: Bytes, i: nat, lx: Lexeme)
    requires i < |data| && Lex(data, i) == Success(lx)
    ensures Scan(data, i) == Then(lx.tokens, Scan(data, lx.next))
  {
  }

  /** A pass that raises ends the stream with that exception. */
  lemma ScanFails(data: Bytes, i: nat, e: Error)
    requires i < |data| && Lex(data, i) == Failure(e)
    ensures Scan(data, i) == Stream([], e)
  {
    assert Scan(data, i) == Pass(data, i);
  }

  /** One pass of the loop body at offset i, as the generator runs it. */
  method LexAt(data: Bytes, i: nat) returns (r: Result<Lexeme, Error>)
    requires i < |data|
    ensures r == Lex(data, i)
  {
    var c := data[i];
    if c == CHAR_I {
      var found := IndexOf(data, CHAR_E, i + 1);
      if found.None? {
        return Failure(NotFound(CHAR_E, i + 1));
      }
      var end := found.value;
      var number := data[i + 1..end];
      if !LiteralAccepted(number) {
        return Failure(InvalidInteger(number));
      }
      return Success(Lexeme([[CHAR_I], number, [CHAR_E]], end + 1));
    } else if c == CHAR_L || c == CHAR_D || c == CHAR_E {
      return Success(Lexeme([[c]], i + 1));
    } else if IsDigit(c) {
      var found := IndexOf(data, COLON, i);
      if found.None? {
        return Failure(NotFound(COLON, i));
      }
      var colon := found.value;
      var lengthBytes := data[i..colon];
      if colon == i || !AllDigits(lengthBytes) {
        return Failure(InvalidLengthPrefix(lengthBytes));
      }
      var start := colon + 1;
      var end := start + ParseNat(lengthBytes);
      if end > |data| {
        return Failure(TruncatedString);
      }
      return Success(Lexeme([[CHAR_S], data[start..end]], end));
    } else {
      return Failure(UnexpectedCharacter(c, i));
    }
  }

  // ---------------------------------------------------------------------
  // The decoder (`decode_item`, `decode`), pulling from the generator

  /** `decode_item(next_token, token)` on a generator that will yield s. */
  function Item(s: Stream, token: Bytes): (r: Result<Decoded, Error>)
    ensures r.Success? ==> |r.value.rest.tokens| < |s.tokens|
    decreases |s.tokens|, 1
  {
    if token == [CHAR_I] then
      match Pull(s)
      case Failure(e) => Failure(e)
      case Success(number) =>
        match ParseInt(number)
        case None => Failure(NotAnInteger(number))
        case Some(n) =>
          match Pull(Rest(s))
          case Failure(e) => Failure(e)
          case Success(close) =>
            if close != [CHAR_E] then Failure(BadTermination) else Success(Decoded(Int(n), Rest(Rest(s))))
    else if token == [CHAR_S] then
      match Pull(s)
      case Failure(e) => Failure(e)
      case Success(payload) => Success(Decoded(Str(payload), Rest(s)))
    else if token == [CHAR_L] then
      Elements(s, [])
    else if token == [CHAR_D] then
      Entries(s, [])
    else
      Failure(UnexpectedToken(token))
  }

  /** `decode_item(next_token, next_token())`. */
  function NextItem(s: Stream): (r: Result<Decoded, Error>)
    ensures r.Success? ==> |r.value.rest.tokens| < |s.tokens|
    decreases |s.tokens|, 2
  {
    match Pull(s)
    case Failure(e) => Failure(e)
    case Success(token) => Item(Rest(s), token)
  }

  /** The list loop; acc holds the items appended so far. */
  function Elements(s: Stream, acc: seq<Value>): (r: Result<Decoded, Error>)
    ensures r.Success? ==> |r.value.rest.tokens| < |s.tokens| && r.value.value.List?
    decreases |s.tokens|, 0
  {
    match Pull(s)
    case Failure(e) => Failure(e)
    case Success(token) =>
      if token == [CHAR_E] then Success(Decoded(List(acc), Rest(s)))
      else match Item(Rest(s), token)
        case Failure(e) => Failure(e)
        case Success(x) => Elements(x.rest, acc + [x.value])
  }

  /** The dictionary loop; acc holds the entries stored so far. The key is
      decoded, then the value, and only then is the key checked, so a key
      that is not a byte string is refused after its value is decoded. */
  function Entries(s: Stream, acc: seq<Entry<Value>>): (r: Result<Decoded, Error>)
    ensures r.Success? ==> |r.value.rest.tokens| < |s.tokens| && r.value.value.Dict?
    decreases |s.tokens|, 0
  {
    match Pull(s)
    case Failure(e) => Failure(e)
    case Success(token) =>
      if token == [CHAR_E] then Success(Decoded(Dict(acc), Rest(s)))
      else match Item(Rest(s), token)
        case Failure(e) => Failure(e)
        case Success(key) =>
          match NextItem(key.rest)
          case Failure(e) => Failure(e)
          case Success(val) =>
            if !key.value.Str? then Failure(KeyNotBytes(key.value))
            else Entries(val.rest, Put(acc, key.value.bytes, val.value))
  }

  /** `decode_item(next_token, token)` pulling from the generator t. */
  method DecodeItem(t: Tokenizer, token: Bytes) returns (r: Result<Value, Error>)
    modifies t
    ensures r == Outcome(Item(old(t.Remaining()), token))
    ensures r.Success? ==> t.Remaining() == Item(old(t.Remaining()), token).value.rest
    decreases |t.Remaining().tokens|, 1
  {
    if token == [CHAR_I] {
      var number := t.Next();
      if number.Failure? {
        return Failure(number.error);
      }
      var value := ParseInt(number.value);
      if value.None? {
        return Failure(NotAnInteger(number.value));
      }
      var close := t.Next();
      if close.Failure? {
        return Failure(close.error);
      }
      if close.value != [CHAR_E] {
        return Failure(BadTermination);
      }
      return Success(Int(value.value));
    } else if token == [CHAR_S] {
      var payload := t.Next();
      if payload.Failure? {
        return Failure(payload.error);
      }
      return Success(Str(payload.value));
    } else if token == [CHAR_L] {
      r := DecodeList(t);
    } else if token == [CHAR_D] {
      r := DecodeDict(t);
    } else {
      return Failure(UnexpectedToken(token));
    }
  }

  /** `decode_item(next_token, next_token())` pulling from t. */
  method DecodeNext(t: Tokenizer) returns (r: Result<Value, Error>)
    modifies t
    ensures r == Outcome(NextItem(old(t.Remaining())))
    ensures r.Success? ==> t.Remaining() == NextItem(old(t.Remaining())).value.rest
    decreases |t.Remaining().tokens|, 2
  {
    var token := t.Next();
    if token.Failure? {
      return Failure(token.error);
    }
    r := DecodeItem(t, token.value);
  }

  /** The `l` branch of `decode_item`: items until an `e` token. */
  method DecodeList(t: Tokenizer) returns (r: Result<Value, Error>)
    modifies t
    ensures r == Outcome(Elements(old(t.Remaining()), []))
    ensures r.Success? ==> t.Remaining() == Elements(old(t.Remaining()), []).value.rest
    decreases |t.Remaining().tokens|, 0
  {
    ghost var start := t.Remaining();
    var result: seq<Value> := [];
    ghost var s := t.Remaining();
    var p := t.Next();
    while p.Success? && p.value != [CHAR_E]
      invariant p == Pull(s) && t.Remaining() == Rest(s) && |s.tokens| <= |start.tokens|
      invariant Elements(s, result) == Elements(start, [])
      decreases |s.tokens|
    {
      var item := DecodeItem(t, p.value);
      if item.Failure? {
        return Failure(item.error);
      }
      result := result + [item.value];
      s := t.Remaining();
      p := t.Next();
    }
    if p.Failure? {
      return Failure(p.error);
    }
    return Success(List(result));
  }

  /** The `d` branch of `decode_item`: key and value pairs until an `e`
      token, each stored under its key. */
  method DecodeDict(t: Tokenizer) returns (r: Result<Value, Error>)
    modifies t
    ensures r == Outcome(Entries(old(t.Remaining()), []))
    ensures r.Success? ==> t.Remaining() == Entries(old(t.Remaining()), []).value.rest
    decreases |t.Remaining().tokens|, 0
  {
    ghost var start := t.Remaining();
    var result: seq<Entry<Value>> := [];
    ghost var s := t.Remaining();
    var p := t.Next();
    while p.Success? && p.value != [CHAR_E]
      invariant p == Pull(s) && t.Remaining() == Rest(s) && |s.tokens| <= |start.tokens|
      invariant Entries(s, result) == Entries(start, [])
      decreases |s.tokens|
    {
      var key := DecodeItem(t, p.value);
      if key.Failure? {
        return Failure(key.error);
      }
      var value := DecodeNext(t);
      if value.Failure? {
        return Failure(value.error);
      }
      if !key.value.Str? {
        return Failure(KeyNotBytes(key.value));
      }
      result := Put(result, key.value.bytes, value.value);
      s := t.Remaining();
      p := t.Next();
    }
    if p.Failure? {
      return Failure(p.error);
    }
    return Success(Dict(result));
  }

  /** `decode(data)`: the first value, then one more pull, which must find
      the generator finished. */
  function Document(data: Bytes): (r: Result<Value, Error>)
    ensures data == [] ==> r == Failure(Exhausted)
  {
    match NextItem(Scan(data, 0))
    case Failure(e) => Failure(e)
    case Success(d) =>
      match Pull(d.rest)
      case Success(_) => Failure(TrailingData)
      case Failure(e) => if e.Exhausted? then Success(d.value) else Failure(e)
  }

  /** `decode(data)`. */
  method Decode(data: Bytes) returns (r: Result<Value, Error>)
    ensures r == Document(data)
  {
    var tokens := new Tokenizer(data);
    r := DecodeNext(tokens);
    if r.Failure? {
      return;
    }
    var extra := tokens.Next();
    if extra.Success? {
      return Failure(TrailingData);
    }
    if !extra.error.Exhausted? {
      return Failure(extra.error);
    }
  }

  // ---------------------------------------------------------------------
  // The generator on bytes the encoder wrote

  /** The generator over an integer the encoder wrote: one pass of the
      loop yields `i`, its literal and `e`. */
  lemma ScanInteger(data: Bytes, pos: nat, n: int, end: nat)
    requires At(data, pos, Encode(Int(n))) && end == pos + |Encode(Int(n))|
    ensures Scan(data, pos) == Then(Tokens(Int(n)), Scan(data, end))
  {
    assert Encode(Int(n)) == [CHAR_I] + DecimalInt(n) + [CHAR_E];
    assert Tokens(Int(n)) == [[CHAR_I], DecimalInt(n), [CHAR_E]];
    LiteralHasNoE(n);
    CanonicalAccepted(DecimalInt(n));
    ScanLiteral(data, pos, DecimalInt(n), end);
  }

  lemma ScanLiteral(data: Bytes, pos: nat, literal: Bytes, end: nat)
    requires At(data, pos, [CHAR_I] + literal + [CHAR_E]) && end == pos + |literal| + 2
    requires LiteralAccepted(literal) && forall k :: 0 <= k < |literal| ==> literal[k] != CHAR_E
    ensures Scan(data, pos) == Then([[CHAR_I], literal, [CHAR_E]], Scan(data, end))
  {
    LiteralLexes(data, pos, literal, end);
    ScanStep(data, pos, Lexeme([[CHAR_I], literal, [CHAR_E]], end));
  }

  lemma LiteralLexes(data: Bytes, pos: nat, literal: Bytes, end: nat)
    requires At(data, pos, [CHAR_I] + literal + [CHAR_E]) && end == pos + |literal| + 2
    requires LiteralAccepted(literal) && forall k :: 0 <= k < |literal| ==> literal[k] != CHAR_E
    ensures pos < |data|
    ensures Lex(data, pos) == Success(Lexeme([[CHAR_I], literal, [CHAR_E]], end))
  {
    var start := pos + 1;
    var close := start + |literal|;
    assert pos < |data| && data[pos] == CHAR_I && IndexOf(data, CHAR_E, start) == Some(close)
        && data[start..close] == literal by {
      assert [CHAR_I] + literal + [CHAR_E] == [CHAR_I] + (literal + [CHAR_E]);
      AtCut(data, pos, [CHAR_I], literal + [CHAR_E], start);
      IndexOfAt(data, start, literal, CHAR_E);
      AtSplit(data, start, literal, [CHAR_E]);
      AtSlice(data, start, literal);
      assert data[pos] == [CHAR_I][0];
    }
    IntegerBranch(data, pos, close);
  }

  /** The `i` branch once the first `e` after it is known and its text is
      accepted. */
  lemma IntegerBranch(data: Bytes, pos: nat, close: nat)
    requires pos < |data| && data[pos] == CHAR_I && IndexOf(data, CHAR_E, pos + 1) == Some(close)
    requires LiteralAccepted(data[pos + 1..close])
    ensures Lex(data, pos) == Success(Lexeme([[CHAR_I], data[pos + 1..close], [CHAR_E]], close + 1))
  {
  }

  /** A byte string the encoder wrote is one pass of the loop: its length
      prefix, the colon, and exactly the payload. */
  lemma StringLexes(data: Bytes, pos: nat, b: Bytes, end: nat)
    requires At(data, pos, EncodeString(b)) && end == pos + |EncodeString(b)|
    ensures pos < |data|
    ensures Lex(data, pos) == Success(Lexeme([[CHAR_S], b], end))
  {
    var prefix := Digits(|b|);
    var colon := pos + |prefix|;
    assert EncodeString(b) == (prefix + [COLON]) + b;
    AtCut(data, pos, prefix + [COLON], b, colon + 1);
    AtSplit(data, pos, prefix, [COLON]);
    IndexOfAt(data, pos, prefix, COLON);
    AtSlice(data, pos, prefix);
    AtSlice(data, colon + 1, b);
    assert data[pos] == prefix[0];
  }

  /** A list, dictionary or end marker is a pass of its own. */
  lemma ScanMarker(data: Bytes, pos: nat, c: Byte, next: nat)
    requires pos < |data| && data[pos] == c && (c == CHAR_L || c == CHAR_D || c == CHAR_E)
    requires next == pos + 1
    ensures Scan(data, pos) == Then([[c]], Scan(data, next))
  {
    ScanStep(data, pos, Lexeme([[c]], next));
  }

  /** The generator over a byte string the encoder wrote. */
  lemma ScanString(data: Bytes, pos: nat, b: Bytes, end: nat)
    requires At(data, pos, EncodeString(b)) && end == pos + |EncodeString(b)|
    ensures Scan(data, pos) == Then([[CHAR_S], b], Scan(data, end))
  {
    StringLexes(data, pos, b, end);
    ScanStep(data, pos, Lexeme([[CHAR_S], b], end));
  }

  /** Where the encoding of a canonical value v is written, from pos to end,
      the generator yields the tokens of v and then carries on from end. */
  lemma {:induction false} ScanValue(data: Bytes, pos: nat, v: Value, end: nat)
    requires Canonical(v) && At(data, pos, Encode(v)) && end == pos + |Encode(v)|
    ensures Scan(data, pos) == Then(Tokens(v), Scan(data, end))
    decreases v, 2
  {
    match v
    case Int(n) =>
      ScanInteger(data, pos, n, end);
    case Str(b) =>
      ScanString(data, pos, b, end);
    case List(xs) =>
      ScanList(data, pos, xs, end);
    case Dict(es) =>
      ScanDict(data, pos, es, end);
  }

  lemma {:induction false} ScanList(data: Bytes, pos: nat, xs: seq<Value>, end: nat)
    requires Canonical(List(xs)) && At(data, pos, Encode(List(xs))) && end == pos + |Encode(List(xs))|
    ensures Scan(data, pos) == Then(Tokens(List(xs)), Scan(data, end))
    decreases xs, 1
  {
    var body := EncodeAll(xs);
    assert Encode(List(xs)) == [CHAR_L] + body + [CHAR_E];
    var inner, close := pos + 1, end - 1;
    Framed(data, pos, CHAR_L, body, inner, close);
    ScanAll(data, inner, xs, close);
    ScanCompound(data, pos, CHAR_L, inner, close, end, TokensAll(xs));
    assert Tokens(List(xs)) == [[CHAR_L]] + TokensAll(xs) + [[CHAR_E]];
  }

  lemma {:induction false} ScanDict(data: Bytes, pos: nat, es: seq<Entry<Value>>, end: nat)
    requires Canonical(Dict(es)) && At(data, pos, Encode(Dict(es))) && end == pos + |Encode(Dict(es))|
    ensures Scan(data, pos) == Then(Tokens(Dict(es)), Scan(data, end))
    decreases es, 1
  {
    EncodeCanonicalDict(es);
    var body := Join(EncodeValues(es));
    var inner, close := pos + 1, end - 1;
    Framed(data, pos, CHAR_D, body, inner, close);
    ScanEntries(data, inner, es, close);
    ScanCompound(data, pos, CHAR_D, inner, close, end, TokensEntries(es));
    assert Tokens(Dict(es)) == [[CHAR_D]] + TokensEntries(es) + [[CHAR_E]];
  }

  /** A list or dictionary written from pos to close whose body yields the
      tokens ts: the opening marker, ts, then the end marker. */
  lemma ScanCompound(data: Bytes, pos: nat, c: Byte, inner: nat, close: nat, end: nat, ts: seq<Bytes>)
    requires inner == pos + 1 && inner <= close < |data| && end == close + 1
    requires data[pos] == c && data[close] == CHAR_E
    requires c == CHAR_L || c == CHAR_D
    requires Scan(data, inner) == Then(ts, Scan(data, close))
    ensures Scan(data, pos) == Then([[c]] + ts + [[CHAR_E]], Scan(data, end))
  {
    ScanMarker(data, pos, c, inner);
    ScanMarker(data, close, CHAR_E, end);
    ThenThen(ts, [[CHAR_E]], Scan(data, end));
    ThenThen([[c]], ts + [[CHAR_E]], Scan(data, end));
    assert [[c]] + (ts + [[CHAR_E]]) == [[c]] + ts + [[CHAR_E]];
  }

  lemma {:induction false} ScanAll(data: Bytes, pos: nat, xs: seq<Value>, end: nat)
    requires forall j :: 0 <= j < |xs| ==> Canonical(xs[j])
    requires At(data, pos, EncodeAll(xs)) && end == pos + |EncodeAll(xs)|
    ensures Scan(data, pos) == Then(TokensAll(xs), Scan(data, end))
    decreases xs, 0
  {
    if xs == [] {
      ThenNothing(Scan(data, pos));
    } else {
      assert EncodeAll(xs) == Encode(xs[0]) + EncodeAll(xs[1..]);
      var mid := pos + |Encode(xs[0])|;
      AtCut(data, pos, Encode(xs[0]), EncodeAll(xs[1..]), mid);
      ScanValue(data, pos, xs[0], mid);
      ScanAll(data, mid, xs[1..], end);
      Chained(Tokens(xs[0]), TokensAll(xs[1..]), Scan(data, pos), Scan(data, mid), Scan(data, end));
      assert TokensAll(xs) == Tokens(xs[0]) + TokensAll(xs[1..]);
    }
  }

  lemma {:induction false} ScanEntries(data: Bytes, pos: nat, es: seq<Entry<Value>>, end: nat)
    requires forall j :: 0 <= j < |es| ==> Canonical(es[j].value)
    requires At(data, pos, Join(EncodeValues(es))) && end == pos + |Join(EncodeValues(es))|
    ensures Scan(data, pos) == Then(TokensEntries(es), Scan(data, end))
    decreases es, 0
  {
    if es == [] {
      ThenNothing(Scan(data, pos));
    } else {
      JoinFirst(es);
      var mid := pos + |EncodeString(es[0].key)|;
      var next := mid + |Encode(es[0].value)|;
      AtCut(data, pos, EncodeString(es[0].key) + Encode(es[0].value), Join(EncodeValues(es[1..])), next);
      AtCut(data, pos, EncodeString(es[0].key), Encode(es[0].value), mid);
      ScanString(data, pos, es[0].key, mid);
      ScanValue(data, mid, es[0].value, next);
      ScanEntries(data, next, es[1..], end);
      Chained([[CHAR_S], es[0].key], Tokens(es[0].value), Scan(data, pos), Scan(data, mid), Scan(data, next));
      Chained([[CHAR_S], es[0].key] + Tokens(es[0].value), TokensEntries(es[1..]),
        Scan(data, pos), Scan(data, next), Scan(data, end));
    }
  }

  /** The whole generator on the encoding of a canonical value: the value's
      tokens, then StopIteration. */
  lemma ScanEncoding(v: Value)
    requires Canonical(v)
    ensures Scan(Encode(v), 0) == Then(Tokens(v), Stream([], Exhausted))
  {
    ScanValue(Encode(v), 0, v, |Encode(v)|);
  }

  // ---------------------------------------------------------------------
  // The decoder on the tokens of a value

  /** The `s` branch: the payload token becomes a byte string. */
  lemma StringItem(b: Bytes, rest: Stream)
    ensures NextItem(Then([[CHAR_S], b], rest)) == Success(Decoded(Str(b), rest))
  {
    PullThen([[CHAR_S], b], rest);
    PullThen([b], rest);
    assert [[CHAR_S], b][1..] == [b] && [b][1..] == [];
    ThenNothing(rest);
  }

  /** The `i` branch: a literal int() reads as n, followed by the `e`
      token, is the integer n. */
  lemma IntegerItem(literal: Bytes, n: int, rest: Stream)
    requires ParseInt(literal) == Some(n)
    ensures NextItem(Then([[CHAR_I], literal, [CHAR_E]], rest)) == Success(Decoded(Int(n), rest))
  {
    var ts: seq<Bytes> := [[CHAR_I], literal, [CHAR_E]];
    PullThen(ts, rest);
    PullThen(ts[1..], rest);
    PullThen(ts[1..][1..], rest);
    assert |ts[1..][1..][1..]| == 0;
    ThenNothing(rest);
  }

  /** Pulling the tokens of a well-formed value, whatever follows them,
      rebuilds the value and leaves the generator right after its last
      token. */
  lemma {:induction false} NextItemTokens(v: Value, rest: Stream)
    requires WellFormed(v)
    ensures NextItem(Then(Tokens(v), rest)) == Success(Decoded(v, rest))
    decreases v, 2
  {
    match v
    case Int(n) =>
      IntegerItem(DecimalInt(n), n, rest);
    case Str(b) =>
      StringItem(b, rest);
    case List(xs) =>
      var tail := Then([[CHAR_E]], rest);
      assert Elements(Then(TokensAll(xs), tail), []) == Success(Decoded(v, rest)) by {
        ElementsTokens(xs, [], tail);
        PullClose(rest);
        assert [] + xs == xs;
      }
      ListFrame(TokensAll(xs), rest, v);
    case Dict(es) =>
      var tail := Then([[CHAR_E]], rest);
      assert Entries(Then(TokensEntries(es), tail), []) == Success(Decoded(v, rest)) by {
        assert [] + es == es;
        EntriesTokens(es, [], tail);
        PullClose(rest);
      }
      DictFrame(TokensEntries(es), rest, v);
  }

  /** The list loop over the tokens of xs appends xs. */
  lemma {:induction false} ElementsTokens(xs: seq<Value>, acc: seq<Value>, tail: Stream)
    requires forall j :: 0 <= j < |xs| ==> WellFormed(xs[j])
    ensures Elements(Then(TokensAll(xs), tail), acc) == Elements(tail, acc + xs)
    decreases xs, 1
  {
    if xs == [] {
      ThenNothing(tail);
      assert acc + xs == acc;
    } else {
      var after := Then(TokensAll(xs[1..]), tail);
      NextItemTokens(xs[0], after);
      ElementsTokens(xs[1..], acc + [xs[0]], tail);
      TokensStart(xs[0]);
      ElementsCons(xs[0], Tokens(xs[0]), TokensAll(xs[1..]), acc, tail, after);
      assert TokensAll(xs) == Tokens(xs[0]) + TokensAll(xs[1..]);
      AppendCons(acc, xs);
    }
  }

  /** One pass of the list loop over tokens ts that decode to x: x is
      appended, and the loop goes on with what follows ts. */
  lemma ElementsCons(x: Value, ts: seq<Bytes>, more: seq<Bytes>, acc: seq<Value>, tail: Stream, after: Stream)
    requires after == Then(more, tail) && ts != [] && ts[0] != [CHAR_E]
    requires NextItem(Then(ts, after)) == Success(Decoded(x, after))
    ensures Elements(Then(ts + more, tail), acc) == Elements(after, acc + [x])
  {
    var s := Then(ts, after);
    ThenThen(ts, more, tail);
    PullThen(ts, after);
    ElementsStep(s, acc, x, after);
  }

  /** One pass of the list loop: an item that is not `e` is decoded and
      appended. */
  lemma ElementsStep(s: Stream, acc: seq<Value>, x: Value, after: Stream)
    requires Pull(s).Success? && Pull(s).value != [CHAR_E]
    requires NextItem(s) == Success(Decoded(x, after))
    ensures Elements(s, acc) == Elements(after, acc + [x])
  {
  }

  /** The dictionary loop over the tokens of entries whose keys are new
      and distinct stores them in order. */
  lemma {:induction false} EntriesTokens(es: seq<Entry<Value>>, acc: seq<Entry<Value>>, tail: Stream)
    requires forall j :: 0 <= j < |es| ==> WellFormed(es[j].value)
    requires DistinctKeys(acc + es)
    ensures Entries(Then(TokensEntries(es), tail), acc) == Entries(tail, acc + es)
    decreases es, 1
  {
    if es == [] {
      ThenNothing(tail);
      assert acc + es == acc;
    } else {
      var e := es[0];
      var after := Then(TokensEntries(es[1..]), tail);
      NextItemTokens(e.value, after);
      EntryStep(e.key, Tokens(e.value), TokensEntries(es[1..]), e.value, acc, tail, after);
      assert TokensEntries(es) == [[CHAR_S], e.key] + Tokens(e.value) + TokensEntries(es[1..]);
      assert Absent(acc, e.key) by {
        forall j | 0 <= j < |acc| ensures acc[j].key != e.key {
          assert (acc + es)[j] == acc[j] && (acc + es)[|acc|] == e;
        }
      }
      AppendCons(acc, es);
      EntriesTokens(es[1..], acc + [e], tail);
    }
  }

  /** One pass of the dictionary loop over a byte-string key k and tokens
      ts that decode to x: `result[k] = x`, and the loop goes on with what
      follows. */
  lemma EntryStep(k: Bytes, ts: seq<Bytes>, more: seq<Bytes>, x: Value, acc: seq<Entry<Value>>,
                  tail: Stream, after: Stream)
    requires after == Then(more, tail)
    requires NextItem(Then(ts, after)) == Success(Decoded(x, after))
    ensures Entries(Then([[CHAR_S], k] + ts + more, tail), acc) == Entries(after, Put(acc, k, x))
  {
    var mid := Then(ts, after);
    ThenThen([[CHAR_S], k] + ts, more, tail);
    ThenThen([[CHAR_S], k], ts, after);
    StringItem(k, mid);
    PullThen([[CHAR_S], k], mid);
  }

  /** bendecode.py decodes what its encoder writes: for a canonical value
      (dictionaries already in key order), exactly the value. */
  lemma DocumentRoundTrip(v: Value)
    requires Canonical(v)
    ensures Document(Encode(v)) == Success(v)
  {
    var end := Stream([], Exhausted);
    ScanEncoding(v);
    CanonicalWellFormed(v);
    NextItemTokens(v, end);
  }

  /** For any value Python can hold, decoding the encoding gives the value
      with every dictionary in key order, which equals it as a Python
      value. */
  lemma DecodeEncode(v: Value)
    requires WellFormed(v)
    ensures Document(Encode(v)) == Success(Canonicalize(v))
  {
    CanonicalizeCanonical(v);
    EncodeCanonicalize(v);
    DocumentRoundTrip(Canonicalize(v));
  }

  /** Encoding what was decoded from an encoding writes the same bytes
      again. */
  lemma ReencodeStable(v: Value)
    requires WellFormed(v)
    ensures Document(Encode(v)).Success? && Encode(Document(Encode(v)).value) == Encode(v)
  {
    DecodeEncode(v);
    EncodeCanonicalize(v);
  }

  // ---------------------------------------------------------------------
  // What decoding builds

  /** Whatever bendecode.py decodes is a value Python can hold: every
      dictionary it builds has distinct keys. */
  lemma DocumentWellFormed(data: Bytes)
    ensures Document(data).Success? ==> WellFormed(Document(data).value)
  {
    NextItemWellFormed(Scan(data, 0));
  }

  lemma {:induction false} NextItemWellFormed(s: Stream)
    ensures NextItem(s).Success? ==> WellFormed(NextItem(s).value.value)
    decreases |s.tokens|, 2
  {
    if s.tokens != [] {
      ItemWellFormed(Rest(s), s.tokens[0]);
    }
  }

  lemma {:induction false} ItemWellFormed(s: Stream, token: Bytes)
    ensures Item(s, token).Success? ==> WellFormed(Item(s, token).value.value)
    decreases |s.tokens|, 1
  {
    if token == [CHAR_L] {
      ElementsWellFormed(s, []);
    } else if token == [CHAR_D] {
      EntriesWellFormed(s, []);
    }
  }

  lemma {:induction false} ElementsWellFormed(s: Stream, acc: seq<Value>)
    requires forall j :: 0 <= j < |acc| ==> WellFormed(acc[j])
    ensures Elements(s, acc).Success? ==> WellFormed(Elements(s, acc).value.value)
    decreases |s.tokens|, 0
  {
    if s.tokens != [] && s.tokens[0] != [CHAR_E] {
      var token := s.tokens[0];
      ItemWellFormed(Rest(s), token);
      var item := Item(Rest(s), token);
      if item.Success? {
        var x := item.value;
        ElementsWellFormed(x.rest, acc + [x.value]);
      }
    }
  }

  lemma {:induction false} EntriesWellFormed(s: Stream, acc: seq<Entry<Value>>)
    requires DistinctKeys(acc) && forall j :: 0 <= j < |acc| ==> WellFormed(acc[j].value)
    ensures Entries(s, acc).Success? ==> WellFormed(Entries(s, acc).value.value)
    decreases |s.tokens|, 0
  {
    if s.tokens != [] && s.tokens[0] != [CHAR_E] {
      var key := Item(Rest(s), s.tokens[0]);
      if key.Success? {
        NextItemWellFormed(key.value.rest);
        var val := NextItem(key.value.rest);
        if val.Success? && key.value.value.Str? {
          var next := Put(acc, key.value.value.bytes, val.value.value);
          PutWellFormed(acc, key.value.value.bytes, val.value.value);
          EntriesWellFormed(val.value.rest, next);
        }
      }
    }
  }

  /** `result[key] = value` keeps a dictionary of well-formed values with
      distinct keys so. */
  lemma PutWellFormed(acc: seq<Entry<Value>>, key: Bytes, v: Value)
    requires DistinctKeys(acc) && forall j :: 0 <= j < |acc| ==> WellFormed(acc[j].value)
    requires WellFormed(v)
    ensures DistinctKeys(Put(acc, key, v))
    ensures forall j :: 0 <= j < |Put(acc, key, v)| ==> WellFormed(Put(acc, key, v)[j].value)
  {
    PutDistinct(acc, key, v);
  }

  /** A key written twice in one dictionary: the second value replaces the
      first, where the first was stored, and no error is raised. */
  lemma DuplicateKeyLastWins(k: Bytes, v1: Value, v2: Value, rest: Stream)
    requires WellFormed(v1) && WellFormed(v2)
    ensures NextItem(Then([[CHAR_D]] + TokensEntries([Entry(k, v1), Entry(k, v2)]) + [[CHAR_E]], rest))
         == Success(Decoded(Dict([Entry(k, v2)]), rest))
  {
    var ts := TokensEntries([Entry(k, v1), Entry(k, v2)]);
    assert ts == [[CHAR_S], k] + Tokens(v1) + ([[CHAR_S], k] + Tokens(v2)) by {
      assert [Entry(k, v1), Entry(k, v2)][1..] == [Entry(k, v2)];
      assert [Entry(k, v2)][1..] == [];
      assert TokensEntries([Entry(k, v2)]) == [[CHAR_S], k] + Tokens(v2) + [];
      AppendEmpty([[CHAR_S], k] + Tokens(v2));
    }
    DuplicateEntries(k, v1, v2, rest);
    DictFrame(ts, rest, Dict([Entry(k, v2)]));
  }

  /** The dictionary loop over the same key twice. */
  lemma DuplicateEntries(k: Bytes, v1: Value, v2: Value, rest: Stream)
    requires WellFormed(v1) && WellFormed(v2)
    ensures Entries(Then([[CHAR_S], k] + Tokens(v1) + ([[CHAR_S], k] + Tokens(v2)), Then([[CHAR_E]], rest)), [])
         == Success(Decoded(Dict([Entry(k, v2)]), rest))
  {
    var close := Then([[CHAR_E]], rest);
    var second := Then([[CHAR_S], k] + Tokens(v2), close);
    NextItemTokens(v1, second);
    EntryStep(k, Tokens(v1), [[CHAR_S], k] + Tokens(v2), v1, [], close, second);
    assert Put([], k, v1) == [Entry(k, v1)];
    assert Entries(second, [Entry(k, v1)]) == Entries(close, [Entry(k, v2)]) by {
      NextItemTokens(v2, close);
      ThenNothing(close);
      EntryStep(k, Tokens(v2), [], v2, [Entry(k, v1)], close, close);
      AppendEmpty([[CHAR_S], k] + Tokens(v2));
      assert Put([Entry(k, v1)], k, v2) == [Entry(k, v2)] by {
        assert [Entry(k, v1)][1..] == [];
      }
    }
    PullClose(rest);
  }

  /** The `l` branch around a list body whose loop, run to the `e`, builds
      l. */
  lemma ListFrame(ts: seq<Bytes>, rest: Stream, l: Value)
    requires Elements(Then(ts, Then([[CHAR_E]], rest)), []) == Success(Decoded(l, rest))
    ensures NextItem(Then([[CHAR_L]] + ts + [[CHAR_E]], rest)) == Success(Decoded(l, rest))
  {
    ThenThen(ts, [[CHAR_E]], rest);
    DropFirst([CHAR_L], ts, [[CHAR_E]]);
    PullThen([[CHAR_L]] + ts + [[CHAR_E]], rest);
  }

  /** The `d` branch around a dictionary body whose loop, run to the `e`,
      builds d. */
  lemma DictFrame(ts: seq<Bytes>, rest: Stream, d: Value)
    requires Entries(Then(ts, Then([[CHAR_E]], rest)), []) == Success(Decoded(d, rest))
    ensures NextItem(Then([[CHAR_D]] + ts + [[CHAR_E]], rest)) == Success(Decoded(d, rest))
  {
    ThenThen(ts, [[CHAR_E]], rest);
    DropFirst([CHAR_D], ts, [[CHAR_E]]);
    PullThen([[CHAR_D]] + ts + [[CHAR_E]], rest);
  }

  // ---------------------------------------------------------------------
  // The bytes `main` hands to SHA-1

  /** `encode(torrent[b"info"])` for `torrent = decode(data)`, or why there
      is none. */
  function InfoHashInput(data: Bytes): (r: Result<Bytes, Error>) {
    match Document(data)
    case Failure(e) => Failure(e)
    case Success(torrent) =>
      match SelectInfo(torrent)
      case Failure(e) => Failure(e)
      case Success(info) => Success(Encode(info))
  }

  /** For a torrent file written by the encoder, the hash input is the
      encoding of the info value stored in it. */
  lemma InfoHashOfEncoding(torrent: Value, info: Value)
    requires Canonical(torrent) && torrent.Dict? && Entry(INFO, info) in torrent.entries
    ensures InfoHashInput(Encode(torrent)) == Success(Encode(info))
  {
    DocumentRoundTrip(torrent);
    AscendingDistinct(torrent.entries);
    LookupDistinct(torrent.entries, INFO, info);
  }

  /** A torrent file without an info key is refused with
      InvalidFileException. */
  lemma InfoHashMissing(torrent: Value)
    requires Canonical(torrent) && torrent.Dict? && Absent(torrent.entries, INFO)
    ensures InfoHashInput(Encode(torrent)) == Failure(MissingInfo)
  {
    DocumentRoundTrip(torrent);
  }

  // ---------------------------------------------------------------------
  // Inputs the code treats differently from the bencode grammar

  /** An integer literal the check refuses fails the whole document with
      "Invalid integer value", whatever follows it. */
  lemma RejectedInteger(data: Bytes, literal: Bytes)
    requires At(data, 0, [CHAR_I] + literal + [CHAR_E])
    requires forall k :: 0 <= k < |literal| ==> literal[k] != CHAR_E
    requires !LiteralAccepted(literal)
    ensures Document(data) == Failure(InvalidInteger(literal))
  {
    assert [CHAR_I] + literal + [CHAR_E] == [CHAR_I] + (literal + [CHAR_E]);
    AtCut(data, 0, [CHAR_I], literal + [CHAR_E], 1);
    IndexOfAt(data, 1, literal, CHAR_E);
    AtSplit(data, 1, literal, [CHAR_E]);
    AtSlice(data, 1, literal);
    assert data[0] == [CHAR_I][0];
    ScanFails(data, 0, InvalidInteger(literal));
  }

  /** A whole document that is one integer literal the check accepts
      decodes to what int() reads. */
  lemma AcceptedInteger(data: Bytes, literal: Bytes, n: int)
    requires At(data, 0, [CHAR_I] + literal + [CHAR_E]) && |data| == |literal| + 2
    requires forall k :: 0 <= k < |literal| ==> literal[k] != CHAR_E
    requires LiteralAccepted(literal) && ParseInt(literal) == Some(n)
    ensures Document(data) == Success(Int(n))
  {
    var end := |data|;
    var stop := Stream([], Exhausted);
    LiteralLexes(data, 0, literal, end);
    ScanStep(data, 0, Lexeme([[CHAR_I], literal, [CHAR_E]], end));
    assert Scan(data, end) == stop;
    IntegerItem(literal, n, stop);
  }

  lemma RejectsEmptyInteger()
    ensures Document([CHAR_I, CHAR_E]) == Failure(InvalidInteger([]))
  {
    assert [CHAR_I] + [] + [CHAR_E] == [CHAR_I, CHAR_E];
    RejectedInteger([CHAR_I, CHAR_E], []);
  }

  lemma RejectsLoneMinus()
    ensures Document([CHAR_I, MINUS, CHAR_E]) == Failure(InvalidInteger([MINUS]))
  {
    assert [CHAR_I] + [MINUS] + [CHAR_E] == [CHAR_I, MINUS, CHAR_E];
    RejectedInteger([CHAR_I, MINUS, CHAR_E], [MINUS]);
  }

  lemma RejectsLeadingZero()
    ensures Document([CHAR_I, ZERO, ZERO + 3, CHAR_E]) == Failure(InvalidInteger([ZERO, ZERO + 3]))
  {
    assert [CHAR_I] + [ZERO, ZERO + 3] + [CHAR_E] == [CHAR_I, ZERO, ZERO + 3, CHAR_E];
    RejectedInteger([CHAR_I, ZERO, ZERO + 3, CHAR_E], [ZERO, ZERO + 3]);
  }

  lemma RejectsNegativeLeadingZero()
    ensures Document([CHAR_I, MINUS, ZERO, ZERO + 3, CHAR_E]) == Failure(InvalidInteger([MINUS, ZERO, ZERO + 3]))
  {
    assert [MINUS, ZERO, ZERO + 3][1..] == [ZERO, ZERO + 3];
    assert StripMinus([MINUS, ZERO, ZERO + 3]) == [ZERO, ZERO + 3];
    assert [CHAR_I] + [MINUS, ZERO, ZERO + 3] + [CHAR_E] == [CHAR_I, MINUS, ZERO, ZERO + 3, CHAR_E];
    RejectedInteger([CHAR_I, MINUS, ZERO, ZERO + 3, CHAR_E], [MINUS, ZERO, ZERO + 3]);
  }

  /** `i-0e` gets through the check, and int() reads it as 0. */
  lemma AcceptsNegativeZero()
    ensures Document([CHAR_I, MINUS, ZERO, CHAR_E]) == Success(Int(0))
  {
    assert [MINUS, ZERO][1..] == [ZERO];
    assert [ZERO][..0] == [];
    assert ParseNat([ZERO]) == 0;
    assert [CHAR_I] + [MINUS, ZERO] + [CHAR_E] == [CHAR_I, MINUS, ZERO, CHAR_E];
    AcceptedInteger([CHAR_I, MINUS, ZERO, CHAR_E], [MINUS, ZERO], 0);
  }

  /** `i` with no `e` anywhere after it: `data.index` raises ValueError. */
  lemma MissingTerminator(data: Bytes)
    requires |data| > 0 && data[0] == CHAR_I
    requires forall k :: 1 <= k < |data| ==> data[k] != CHAR_E
    ensures Document(data) == Failure(NotFound(CHAR_E, 1))
  {
    assert IndexOf(data, CHAR_E, 1) == None;
    ScanFails(data, 0, NotFound(CHAR_E, 1));
  }

  /** A length prefix that promises more bytes than there are: "Unexpected
      end of data in string". */
  lemma TruncatedPayload(data: Bytes, prefix: Bytes)
    requires At(data, 0, prefix + [COLON]) && prefix != [] && AllDigits(prefix)
    requires |prefix| + 1 + ParseNat(prefix) > |data|
    ensures Document(data) == Failure(TruncatedString)
  {
    forall k | 0 <= k < |prefix| ensures prefix[k] != COLON {
      assert IsDigit(prefix[k]);
    }
    IndexOfAt(data, 0, prefix, COLON);
    AtSplit(data, 0, prefix, [COLON]);
    AtSlice(data, 0, prefix);
    TruncatedBranch(data, prefix, |prefix|);
    assert IsDigit(data[0]) by {
      assert data[0] == prefix[0];
    }
    ScanFails(data, 0, TruncatedString);
  }

  /** The string branch itself, once the colon has been found. */
  lemma TruncatedBranch(data: Bytes, prefix: Bytes, colon: nat)
    requires 0 < |data| && IndexOf(data, COLON, 0) == Some(colon)
    requires colon == |prefix| && data[0..colon] == prefix
    requires prefix != [] && AllDigits(prefix) && colon + 1 + ParseNat(prefix) > |data|
    ensures LexString(data, 0) == Failure(TruncatedString)
  {
  }

  /** `5:ab`. */
  lemma TruncatedExample()
    ensures Document([ZERO + 5, COLON, 0x61, 0x62]) == Failure(TruncatedString)
  {
    var data := [ZERO + 5, COLON, 0x61, 0x62];
    assert [ZERO + 5][..0] == [];
    assert ParseNat([ZERO + 5]) == 5;
    assert At(data, 0, [ZERO + 5] + [COLON]);
    TruncatedPayload(data, [ZERO + 5]);
  }

  /** A length prefix that is not all digits up to the first colon:
      "Invalid string length prefix". */
  lemma InvalidPrefix(data: Bytes, colon: nat)
    requires 0 < |data| && IsDigit(data[0]) && IndexOf(data, COLON, 0) == Some(colon)
    requires !AllDigits(data[0..colon])
    ensures Document(data) == Failure(InvalidLengthPrefix(data[0..colon]))
  {
    assert Lex(data, 0) == Failure(InvalidLengthPrefix(data[0..colon])) by {
      var c := data[0];
      assert c != CHAR_I && c != CHAR_L && c != CHAR_D && c != CHAR_E;
    }
    ScanFails(data, 0, InvalidLengthPrefix(data[0..colon]));
  }

  /** `1a:x`. */
  lemma InvalidPrefixExample()
    ensures Document([ZERO + 1, 0x61, COLON, 0x78]) == Failure(InvalidLengthPrefix([ZERO + 1, 0x61]))
  {
    var data: Bytes := [ZERO + 1, 0x61, COLON, 0x78];
    assert IndexOf(data, COLON, 0) == Some(2) by {
      IndexOfAt(data, 0, [ZERO + 1, 0x61], COLON);
    }
    assert data[0..2] == [ZERO + 1, 0x61];
    assert !IsDigit(data[0..2][1]);
    InvalidPrefix(data, 2);
  }

  /** A digit with no colon anywhere after it: `data.index(b":")` raises
      ValueError. */
  lemma MissingColon(data: Bytes)
    requires 0 < |data| && IsDigit(data[0])
    requires forall k :: 0 <= k < |data| ==> data[k] != COLON
    ensures Document(data) == Failure(NotFound(COLON, 0))
  {
    assert IndexOf(data, COLON, 0) == None;
    assert Lex(data, 0) == Failure(NotFound(COLON, 0)) by {
      var c := data[0];
      assert c != CHAR_I && c != CHAR_L && c != CHAR_D && c != CHAR_E;
    }
    ScanFails(data, 0, NotFound(COLON, 0));
  }

  /** `12`. */
  lemma MissingColonExample()
    ensures Document([ZERO + 1, ZERO + 2]) == Failure(NotFound(COLON, 0))
  {
    MissingColon([ZERO + 1, ZERO + 2]);
  }

  /** Any run of digits is a length prefix, leading zeros included: only
      `isdigit()` is checked, so the prefix need not be the encoder's. */
  lemma PaddedPrefix(data: Bytes, prefix: Bytes, payload: Bytes)
    requires data == prefix + [COLON] + payload && prefix != [] && AllDigits(prefix)
    requires ParseNat(prefix) == |payload|
    ensures Document(data) == Success(Str(payload))
  {
    var colon := |prefix|;
    assert IndexOf(data, COLON, 0) == Some(colon) && data[0..colon] == prefix
        && data[colon + 1..|data|] == payload && IsDigit(data[0]) by {
      assert At(data, 0, prefix + [COLON]) by {
        forall k | 0 <= k < |prefix| + 1 ensures data[0 + k] == (prefix + [COLON])[k] {
        }
      }
      forall k | 0 <= k < |prefix| ensures prefix[k] != COLON {
        assert IsDigit(prefix[k]);
      }
      IndexOfAt(data, 0, prefix, COLON);
      assert data[0] == prefix[0];
    }
    PrefixBranch(data, prefix, colon);
    ScanStep(data, 0, Lexeme([[CHAR_S], payload], |data|));
    StringItem(payload, Stream([], Exhausted));
  }

  /** The string branch once the colon has been found and the payload fits. */
  lemma PrefixBranch(data: Bytes, prefix: Bytes, colon: nat)
    requires 0 < |data| && IsDigit(data[0]) && IndexOf(data, COLON, 0) == Some(colon)
    requires data[0..colon] == prefix && prefix != [] && AllDigits(prefix)
    requires colon + 1 + ParseNat(prefix) == |data|
    ensures Lex(data, 0) == Success(Lexeme([[CHAR_S], data[colon + 1..|data|]], |data|))
  {
    var c := data[0];
    assert c != CHAR_I && c != CHAR_L && c != CHAR_D && c != CHAR_E;
  }

  /** `03:abc` is the byte string `abc`. */
  lemma PaddedPrefixExample()
    ensures Document([ZERO, ZERO + 3, COLON, 0x61, 0x62, 0x63]) == Success(Str([0x61, 0x62, 0x63]))
  {
    var prefix: Bytes := [ZERO, ZERO + 3];
    assert ParseNat(prefix) == 3 by {
      assert [ZERO][..0] == [];
      assert ParseNat([ZERO]) == 0;
      assert prefix[..1] == [ZERO];
    }
    assert [ZERO, ZERO + 3, COLON, 0x61, 0x62, 0x63] == prefix + [COLON] + [0x61, 0x62, 0x63];
    PaddedPrefix([ZERO, ZERO + 3, COLON, 0x61, 0x62, 0x63], prefix, [0x61, 0x62, 0x63]);
  }

  /** The `i` branch pulls the literal and then one more token; anything
      but `e` there raises ValueError ("Invalid integer termination"). */
  lemma UnterminatedIntegerTokens(number: Bytes, t: Bytes, rest: Stream)
    requires ParseInt(number).Some? && t != [CHAR_E]
    ensures NextItem(Then([[CHAR_I], number, t], rest)) == Failure(BadTermination)
  {
    PullThen([[CHAR_I], number, t], rest);
    assert [[CHAR_I], number, t][1..] == [number, t];
    PullThen([number, t], rest);
    assert [number, t][1..] == [t];
    PullThen([t], rest);
  }

  /** A first byte that starts no token: "Unexpected character", with its
      offset. */
  lemma UnexpectedFirstByte(data: Bytes)
    requires |data| > 0 && !IsDigit(data[0])
    requires data[0] != CHAR_I && data[0] != CHAR_L && data[0] != CHAR_D && data[0] != CHAR_E
    ensures Document(data) == Failure(UnexpectedCharacter(data[0], 0))
  {
    ScanFails(data, 0, UnexpectedCharacter(data[0], 0));
  }

  /** A dictionary whose first key is followed by `e` fails when the
      decoder pulls that `e` as a value ("Unexpected token"), before the
      tokenizer looks at anything after it. */
  lemma MissingValue(data: Bytes, k: Bytes)
    requires At(data, 0, [CHAR_D] + EncodeString(k) + [CHAR_E])
    ensures Document(data) == Failure(UnexpectedToken([CHAR_E]))
  {
    var p1 := 1;
    var p2 := p1 + |EncodeString(k)|;
    var p3 := p2 + 1;
    AtCut(data, 0, [CHAR_D] + EncodeString(k), [CHAR_E], p2);
    AtCut(data, 0, [CHAR_D], EncodeString(k), p1);
    assert data[0] == [CHAR_D][0];
    assert data[p2] == [CHAR_E][0];
    ScanMarker(data, 0, CHAR_D, p1);
    ScanString(data, p1, k, p2);
    ScanMarker(data, p2, CHAR_E, p3);
    MissingValueTokens(k, Scan(data, 0), Scan(data, p1), Scan(data, p2), Scan(data, p3));
  }

  lemma MissingValueTokens(k: Bytes, s0: Stream, s1: Stream, s2: Stream, s3: Stream)
    requires s0 == Then([[CHAR_D]], s1) && s1 == Then([[CHAR_S], k], s2) && s2 == Then([[CHAR_E]], s3)
    ensures NextItem(s0) == Failure(UnexpectedToken([CHAR_E]))
  {
    PullThen([[CHAR_D]], s1);
    ThenNothing(s1);
    assert NextItem(s0) == Entries(s1, []);
    StringItem(k, s2);
    PullThen([[CHAR_S], k], s2);
    assert Item(Rest(s1), [CHAR_S]) == Success(Decoded(Str(k), s2));
    PullClose(s3);
    assert NextItem(s2) == Item(s3, [CHAR_E]);
    assert [CHAR_E] != [CHAR_I] && [CHAR_E] != [CHAR_S] && [CHAR_E] != [CHAR_L] && [CHAR_E] != [CHAR_D];
  }

  /** `d1:ae`. */
  lemma MissingValueExample()
    ensures Document([CHAR_D, ZERO + 1, COLON, 0x61, CHAR_E]) == Failure(UnexpectedToken([CHAR_E]))
  {
    var data := [CHAR_D, ZERO + 1, COLON, 0x61, CHAR_E];
    assert EncodeString([0x61]) == [ZERO + 1, COLON, 0x61];
    assert At(data, 0, [CHAR_D] + EncodeString([0x61]) + [CHAR_E]);
    MissingValue(data, [0x61]);
  }

  /** A second value after the first: "Trailing data after valid bencode". */
  lemma TrailingValue(v: Value, w: Value)
    requires Canonical(v) && Canonical(w)
    ensures Document(Encode(v) + Encode(w)) == Failure(TrailingData)
  {
    var data := Encode(v) + Encode(w);
    var mid := |Encode(v)|;
    var end := |data|;
    AtWhole(data);
    AtCut(data, 0, Encode(v), Encode(w), mid);
    ScanValue(data, 0, v, mid);
    ScanValue(data, mid, w, end);
    TokensStart(w);
    CanonicalWellFormed(v);
    NextItemTokens(v, Scan(data, mid));
  }

  /** A list that the data ends inside: the decoder's next pull finds the
      generator finished (StopIteration). */
  lemma UnterminatedList(xs: seq<Value>)
    requires forall j :: 0 <= j < |xs| ==> Canonical(xs[j])
    ensures Document([CHAR_L] + EncodeAll(xs)) == Failure(Exhausted)
  {
    var data := [CHAR_L] + EncodeAll(xs);
    var end := |data|;
    AtWhole(data);
    AtCut(data, 0, [CHAR_L], EncodeAll(xs), 1);
    assert data[0] == [CHAR_L][0];
    ScanMarker(data, 0, CHAR_L, 1);
    ScanAll(data, 1, xs, end);
    assert Scan(data, end) == Stream([], Exhausted);
    UnterminatedTokens(xs, Scan(data, 0), Scan(data, 1));
  }

  lemma UnterminatedTokens(xs: seq<Value>, s0: Stream, s1: Stream)
    requires forall j :: 0 <= j < |xs| ==> Canonical(xs[j])
    requires s0 == Then([[CHAR_L]], s1) && s1 == Then(TokensAll(xs), Stream([], Exhausted))
    ensures NextItem(s0) == Failure(Exhausted)
  {
    forall j | 0 <= j < |xs| ensures WellFormed(xs[j]) {
      CanonicalWellFormed(xs[j]);
    }
    ElementsTokens(xs, [], Stream([], Exhausted));
    PullThen([[CHAR_L]], s1);
    ThenNothing(s1);
  }

  // ---------------------------------------------------------------------
  // The integer literal check

  /** Every literal the encoder writes passes the tokenizer's check. */
  lemma CanonicalAccepted(s: Bytes)
    requires CanonicalLiteral(s)
    ensures LiteralAccepted(s)
  {
    if s[0] == MINUS {
      assert StripMinus(s) == StripMinus(s[1..]) == s[1..];
    } else {
      assert StripMinus(s) == s;
    }
  }

  /** With int() read as ParseInt (an optional minus, then ASCII digits),
      the check lets exactly one literal through besides the canonical
      ones: "-0". Python's int() also reads "+05", " 05" and "1_0", and the
      check refuses none of them; ParseInt does not model that. */
  lemma AcceptedLiterals(s: Bytes, n: int)
    requires LiteralAccepted(s) && ParseInt(s) == Some(n)
    ensures CanonicalLiteral(s) || s == [MINUS, ZERO]
  {
    if |s| >= 2 && s[0] == MINUS && AllDigits(s[1..]) {
      NegativeAccepted(s);
    } else {
      PlainAccepted(s);
    }
  }

  lemma NegativeAccepted(s: Bytes)
    requires LiteralAccepted(s) && |s| >= 2 && s[0] == MINUS && AllDigits(s[1..])
    ensures CanonicalLiteral(s) || s == [MINUS, ZERO]
  {
    var m := s[1..];
    assert StripMinus(s) == StripMinus(m) == m;
    assert Magnitude(s) == m;
    if m[0] == ZERO {
      assert |s| == 2 && s[1] == m[0];
      assert s == [MINUS, ZERO];
    }
  }

  lemma PlainAccepted(s: Bytes)
    requires LiteralAccepted(s) && |s| >= 1 && AllDigits(s)
    ensures CanonicalLiteral(s)
  {
    assert s[0] != MINUS;
    assert StripMinus(s) == s && Magnitude(s) == s;
    if s[0] == ZERO {
      assert |s| == 1;
      assert s == [ZERO];
    }
  }

  lemma LiteralHasNoE(n: int)
    ensures forall k :: 0 <= k < |DecimalInt(n)| ==> DecimalInt(n)[k] != CHAR_E
  {
    var s := DecimalInt(n);
    forall k | 0 <= k < |s| ensures s[k] != CHAR_E {
      if s[0] == MINUS && k > 0 {
        assert s[k] == Magnitude(s)[k - 1];
      } else if s[0] != MINUS {
        assert s[k] == Magnitude(s)[k];
      }
    }
  }

}
