/** The value tree, decimal text, byte order and canonical encoder that both
    decoders share (the `encode` function at the top of bendecode.py and of
    decoder.py), together with Python's dictionary semantics for keys and the
    selection of the `info` subtree. */
module Codec {

  datatype Option<T> = None | Some(value: T)

  datatype Result<T, E> = Success(value: T) | Failure(error: E)

  type Byte = b: int | 0 <= b < 256
  type Bytes = seq<Byte>

  const CHAR_I: Byte := 0x69  // 'i'
  const CHAR_L: Byte := 0x6C  // 'l'
  const CHAR_D: Byte := 0x64  // 'd'
  const CHAR_E: Byte := 0x65  // 'e'
  const CHAR_S: Byte := 0x73  // 's', the token the tokenizers emit before a string payload
  const COLON: Byte := 0x3A
  const MINUS: Byte := 0x2D
  const ZERO: Byte := 0x30
  const INFO: Bytes := [0x69, 0x6E, 0x66, 0x6F]  // "info"

  /** A dictionary entry. Dictionaries are sequences of entries in Python's
      insertion order; keys are byte strings (latin-1 text in decoder.py,
      which is the same thing one character per byte). */
  datatype Entry<T> = Entry(key: Bytes, value: T)

  /** A decoded bencode value: what the Python code builds out of int, bytes,
      list and dict. */
  datatype Value =
    | Int(n: int)
    | Str(bytes: Bytes)
    | List(items: seq<Value>)
    | Dict(entries: seq<Entry<Value>>)

  /** Why decoding or the info selection fails. Each comment names the Python
      exception the source raises in that case (see Raised). */
  datatype Error =
    | NotFound(byte: Byte, start: nat)          // bytes.index finds no such byte
    | InvalidInteger(literal: Bytes)             // "Invalid integer value"
    | InvalidLengthPrefix(prefix: Bytes)        // "Invalid string length prefix"
    | TruncatedString                            // "Unexpected end of data in string"
    | UnexpectedCharacter(found: Byte, at: nat)  // "Unexpected character ... at byte ..."
    | NoMatch(at: nat)                           // no alternative of the token pattern matches
    | NotAnInteger(text: Bytes)                 // int() refuses the token
    | BadTermination                             // integer token not followed by e
    | UnexpectedToken(token: Bytes)             // a token that cannot start a value
    | Exhausted                                  // next() on a finished token generator
    | TrailingData                               // a token left after the first value
    | KeyNotBytes(key: Value)                   // dictionary key that is not a byte string
    | MissingInfo                                // no info key in the torrent
    | InfoTypeError                              // `in` or `[]` applied to a non-dictionary torrent

  datatype Exception = SyntaxError | ValueError | StopIteration | TypeError | InvalidFileException

  /** The Python exception class that signals each error. */
  function Raised(e: Error): Exception {
    match e
    case NotFound(_, _) => ValueError
    case InvalidInteger(_) => SyntaxError
    case InvalidLengthPrefix(_) => SyntaxError
    case TruncatedString => SyntaxError
    case UnexpectedCharacter(_, _) => SyntaxError
    case NoMatch(_) => SyntaxError
    case NotAnInteger(_) => ValueError
    case BadTermination => ValueError
    case UnexpectedToken(_) => ValueError
    case Exhausted => StopIteration
    case TrailingData => SyntaxError
    case KeyNotBytes(_) => TypeError
    case MissingInfo => InvalidFileException
    case InfoTypeError => TypeError
  }

  // ---------------------------------------------------------------------
  // Byte-sequence helpers

  /** s occurs in data at offset p. */
  predicate At(data: Bytes, p: nat, s: Bytes) {
    p + |s| <= |data| && forall k :: 0 <= k < |s| ==> data[p + k] == s[k]
  }

  lemma AtWhole(data: Bytes)
    ensures At(data, 0, data)
  {
    forall k | 0 <= k < |data| ensures data[0 + k] == data[k] {
    }
  }

  /** The same fact as a slice of data. */
  lemma AtSlice(data: Bytes, p: nat, s: Bytes)
    requires At(data, p, s)
    ensures data[p..p + |s|] == s
  {
    forall k | 0 <= k < |s| ensures data[p..p + |s|][k] == s[k] {
      assert data[p..p + |s|][k] == data[p + k];
    }
  }

  lemma AtSplit(data: Bytes, p: nat, a: Bytes, b: Bytes)
    requires At(data, p, a + b)
    ensures At(data, p, a) && At(data, p + |a|, b)
  {
    forall k | 0 <= k < |a| ensures data[p + k] == a[k] {
      assert (a + b)[k] == a[k];
    }
    forall k | 0 <= k < |b| ensures data[p + |a| + k] == b[k] {
      assert (a + b)[|a| + k] == b[k];
    }
  }

  /** AtSplit with the offset of the second part named by the caller. */
  lemma AtCut(data: Bytes, p: nat, a: Bytes, b: Bytes, q: nat)
    requires At(data, p, a + b) && q == p + |a|
    ensures At(data, p, a) && At(data, q, b)
  {
    AtSplit(data, p, a, b);
  }

  /** The layout of a value framed by a marker byte and `e`, written at pos: the
      marker, the body one byte in, and `e` at close, right after the body. */
  lemma Framed(data: Bytes, pos: nat, c: Byte, body: Bytes, inner: nat, close: nat)
    requires At(data, pos, [c] + body + [CHAR_E]) && inner == pos + 1 && close == inner + |body|
    ensures At(data, inner, body)
    ensures close < |data| && data[pos] == c && data[close] == CHAR_E
  {
    AtCut(data, pos, [c] + body, [CHAR_E], close);
    AtCut(data, pos, [c], body, inner);
    assert data[pos] == [c][0];
    assert data[close] == [CHAR_E][0];
  }

  /** Appending the head of xs, then its tail, appends xs. */
  lemma AppendCons<T>(acc: seq<T>, xs: seq<T>)
    requires xs != []
    ensures acc + [xs[0]] + xs[1..] == acc + xs
  {
    assert [xs[0]] + xs[1..] == xs;
  }

  lemma AppendEmpty<T>(s: seq<T>)
    ensures s + [] == s
  {
  }

  /** Dropping the opening marker of a framed sequence. */
  lemma DropFirst<T>(m: T, body: seq<T>, close: seq<T>)
    ensures ([m] + body + close)[1..] == body + close
  {
    assert ([m] + body + close)[1..] == ([m] + (body + close))[1..];
  }

  /** Python's `data.index(bytes([b]), start)`: the first offset at or after
      start that holds b, or None where Python raises ValueError. */
  function IndexOf(data: Bytes, b: Byte, start: nat): (r: Option<nat>)
    ensures r.Some? ==> start <= r.value < |data| && data[r.value] == b
    ensures r.Some? ==> forall k :: start <= k < r.value ==> data[k] != b
    ensures r.None? ==> forall k :: start <= k < |data| ==> data[k] != b
    decreases |data| - start
  {
    if start >= |data| then None
    else if data[start] == b then Some(start)
    else IndexOf(data, b, start + 1)
  }

  /** When s holds no b, the first b at or after q is the one right after
      s in `s + [b]` written at q. */
  lemma IndexOfAt(data: Bytes, q: nat, s: Bytes, b: Byte)
    requires At(data, q, s + [b])
    requires forall k :: 0 <= k < |s| ==> s[k] != b
    ensures IndexOf(data, b, q) == Some(q + |s|)
  {
    AtSplit(data, q, s, [b]);
    assert data[q + |s|] == [b][0];
    forall k | q <= k < q + |s| ensures data[k] != b {
      assert data[q + (k - q)] == s[k - q];
    }
  }

  /** Python's `p in s` for byte strings: p occurs somewhere in s. */
  predicate Contains(s: Bytes, p: Bytes)
    decreases |s|
  {
    if |s| < |p| then false else s[..|p|] == p || Contains(s[1..], p)
  }

  // ---------------------------------------------------------------------
  // Decimal text

  predicate IsDigit(b: Byte) { ZERO <= b <= ZERO + 9 }

  predicate AllDigits(s: Bytes) {
    forall k :: 0 <= k < |s| ==> IsDigit(s[k])
  }

  /** The value of a run of ASCII digits in base ten; leading zeros are
      allowed, as int() allows them. */
  function ParseNat(s: Bytes): nat
    requires AllDigits(s)
    decreases |s|
  {
    if s == [] then 0 else ParseNat(s[..|s| - 1]) * 10 + (s[|s| - 1] - ZERO)
  }

  /** Python's `int()` on an optional minus sign followed by ASCII digits;
      None stands for the ValueError int() raises on anything else. */
  function ParseInt(s: Bytes): Option<int> {
    if |s| >= 2 && s[0] == MINUS && AllDigits(s[1..]) then Some(0 - ParseNat(s[1..]))
    else if |s| >= 1 && AllDigits(s) then Some(ParseNat(s))
    else None
  }

  /** "%d" of a non-negative number: its decimal digits, most significant
      first, no leading zero. */
  function Digits(n: nat): (r: Bytes)
    ensures 1 <= |r| && AllDigits(r) && ParseNat(r) == n
    ensures (r[0] == ZERO) == (n == 0)
    ensures n == 0 ==> r == [ZERO]
    decreases n
  {
    if n < 10 then [ZERO + n]
    else
      var r := Digits(n / 10) + [ZERO + n % 10];
      assert r[..|r| - 1] == Digits(n / 10);
      r
  }

  /** The digit part of an integer literal: what follows a leading minus sign. */
  function Magnitude(s: Bytes): Bytes {
    if |s| > 0 && s[0] == MINUS then s[1..] else s
  }

  /** An integer literal in canonical form: an optional minus sign, at least
      one digit, no leading zero, and no minus sign in front of zero. */
  predicate CanonicalLiteral(s: Bytes) {
    var m := Magnitude(s);
    |m| >= 1 && AllDigits(m) && (m[0] == ZERO ==> s == [ZERO])
  }

  /** "%d" of any integer: a minus sign only for negative numbers, then the
      digits of the magnitude. */
  function DecimalInt(n: int): (r: Bytes)
    ensures CanonicalLiteral(r)
    ensures ParseInt(r) == Some(n)
    ensures (r[0] == MINUS) == (n < 0)
  {
    if n < 0 then
      var r := [MINUS] + Digits(-n);
      assert r[1..] == Digits(-n);
      r
    else Digits(n)
  }

  lemma {:induction false} ParseNatPositive(s: Bytes)
    requires |s| >= 1 && AllDigits(s) && s[0] != ZERO
    ensures ParseNat(s) >= 1
    decreases |s|
  {
    if |s| > 1 {
      ParseNatPositive(s[..|s| - 1]);
    }
  }

  lemma {:induction false} DigitsUnique(s: Bytes)
    requires |s| >= 1 && AllDigits(s) && (s[0] == ZERO ==> s == [ZERO])
    ensures Digits(ParseNat(s)) == s
    decreases |s|
  {
    if |s| > 1 {
      var front := s[..|s| - 1];
      DigitsUnique(front);
      ParseNatPositive(front);
      assert s == front + [s[|s| - 1]];
    }
  }

  /** The encoder's integer text is the only canonical literal of its value:
      a canonical literal that int() reads as n is DecimalInt(n). */
  lemma CanonicalLiteralUnique(s: Bytes, n: int)
    requires CanonicalLiteral(s) && ParseInt(s) == Some(n)
    ensures s == DecimalInt(n)
  {
    if |s| > 0 && s[0] == MINUS {
      DigitsUnique(s[1..]);
      ParseNatPositive(s[1..]);
      assert s == [MINUS] + s[1..];
    } else {
      DigitsUnique(s);
    }
  }

  // ---------------------------------------------------------------------
  // Byte order, as Python compares bytes objects (and latin-1 str objects)

  /** a sorts strictly before b: a proper prefix of b, or smaller at the
      first byte where they differ. */
  predicate Less(a: Bytes, b: Bytes)
    decreases |a|
  {
    if |a| == 0 then |b| > 0
    else |b| > 0 && (a[0] < b[0] || (a[0] == b[0] && Less(a[1..], b[1..])))
  }

  lemma {:induction false} LessIrreflexive(a: Bytes)
    ensures !Less(a, a)
    decreases |a|
  {
    if |a| > 0 {
      LessIrreflexive(a[1..]);
    }
  }

  lemma {:induction false} LessTransitive(a: Bytes, b: Bytes, c: Bytes)
    requires Less(a, b) && Less(b, c)
    ensures Less(a, c)
    decreases |a|
  {
    if |a| > 0 && a[0] == b[0] && b[0] == c[0] {
      LessTransitive(a[1..], b[1..], c[1..]);
    }
  }

  lemma {:induction false} LessTotal(a: Bytes, b: Bytes)
    requires a != b
    ensures Less(a, b) || Less(b, a)
    decreases |a|
  {
    if |a| > 0 && |b| > 0 && a[0] == b[0] {
      assert a == [a[0]] + a[1..] && b == [b[0]] + b[1..];
      LessTotal(a[1..], b[1..]);
    }
  }

  lemma LessAsymmetric(a: Bytes, b: Bytes)
    requires Less(a, b)
    ensures !Less(b, a)
  {
    if Less(b, a) {
      LessTransitive(a, b, a);
      LessIrreflexive(a);
    }
  }

  // ---------------------------------------------------------------------
  // Dictionaries: Python's dict over byte-string keys, in insertion order

  /** No key appears twice: true of every Python dict. */
  predicate DistinctKeys<T>(es: seq<Entry<T>>) {
    forall j, k :: 0 <= j < k < |es| ==> es[j].key != es[k].key
  }

  predicate Absent<T>(es: seq<Entry<T>>, key: Bytes) {
    forall j :: 0 <= j < |es| ==> es[j].key != key
  }

  /** `d.get(key)`. */
  function Lookup<T>(es: seq<Entry<T>>, key: Bytes): (r: Option<T>)
    ensures r.None? <==> Absent(es, key)
    ensures r.Some? ==> Entry(key, r.value) in es
    decreases |es|
  {
    if es == [] then None
    else if es[0].key == key then Some(es[0].value)
    else Lookup(es[1..], key)
  }

  /** `d[key] = v`: a key already present keeps its place and takes the new
      value; a new key goes at the end. */
  function Put<T>(es: seq<Entry<T>>, key: Bytes, v: T): (r: seq<Entry<T>>)
    ensures Absent(es, key) ==> r == es + [Entry(key, v)]
    ensures !Absent(es, key) ==> |r| == |es|
    ensures forall j :: 0 <= j < |r| ==> r[j].key == key || (j < |es| && r[j] == es[j])
    decreases |es|
  {
    if es == [] then [Entry(key, v)]
    else if es[0].key == key then [Entry(key, v)] + es[1..]
    else [es[0]] + Put(es[1..], key, v)
  }

  /** After `d[key] = v`, key maps to v and every other key to what it
      mapped to before; distinct keys stay distinct. */
  lemma {:induction false} PutLookup<T>(es: seq<Entry<T>>, key: Bytes, v: T, other: Bytes)
    ensures Lookup(Put(es, key, v), key) == Some(v)
    ensures other != key ==> Lookup(Put(es, key, v), other) == Lookup(es, other)
    decreases |es|
  {
    if es != [] && es[0].key != key {
      PutLookup(es[1..], key, v, other);
    }
  }

  lemma {:induction false} PutDistinct<T>(es: seq<Entry<T>>, key: Bytes, v: T)
    requires DistinctKeys(es)
    ensures DistinctKeys(Put(es, key, v))
    ensures forall j :: 0 <= j < |es| ==> Put(es, key, v)[j] == if es[j].key == key then Entry(key, v) else es[j]
    decreases |es|
  {
    if es != [] && es[0].key != key {
      PutDistinct(es[1..], key, v);
    }
  }

  /** In a dictionary with distinct keys, the entry for a key is what
      looking the key up finds. */
  lemma LookupDistinct<T>(es: seq<Entry<T>>, key: Bytes, v: T)
    requires DistinctKeys(es) && Entry(key, v) in es
    ensures Lookup(es, key) == Some(v)
  {
    var found := Lookup(es, key);
    var j :| 0 <= j < |es| && es[j] == Entry(key, v);
    var k :| 0 <= k < |es| && es[k] == Entry(key, found.value);
    assert j == k;
  }

  /** `d[k] = v` for each pair in order, starting from acc: the dictionary
      both decoders build from the pairs they read. */
  function PutAll<T>(acc: seq<Entry<T>>, ps: seq<Entry<T>>): seq<Entry<T>>
    decreases |ps|
  {
    if ps == [] then acc else PutAll(Put(acc, ps[0].key, ps[0].value), ps[1..])
  }

  /** Storing pairs whose keys are all different just appends them. */
  lemma {:induction false} PutAllDistinct<T>(acc: seq<Entry<T>>, ps: seq<Entry<T>>)
    requires DistinctKeys(acc + ps)
    ensures PutAll(acc, ps) == acc + ps
    decreases |ps|
  {
    if ps != [] {
      assert Absent(acc, ps[0].key) by {
        forall j | 0 <= j < |acc| ensures acc[j].key != ps[0].key {
          assert (acc + ps)[j] == acc[j] && (acc + ps)[|acc|] == ps[0];
        }
      }
      assert acc + ps == (acc + [ps[0]]) + ps[1..];
      PutAllDistinct(acc + [ps[0]], ps[1..]);
    }
  }

  /** Storing the same key twice keeps only the second value. */
  lemma PutTwice<T>(k: Bytes, v1: T, v2: T)
    ensures PutAll([], [Entry(k, v1), Entry(k, v2)]) == [Entry(k, v2)]
  {
    var ps := [Entry(k, v1), Entry(k, v2)];
    var once := Put([], k, v1);
    assert once == [Entry(k, v1)];
    assert PutAll([], ps) == PutAll(once, ps[1..]);
    assert ps[1..][1..] == [];
    assert PutAll(once, ps[1..]) == Put(once, k, v2);
    PutDistinct(once, k, v2);
  }

  // ---------------------------------------------------------------------
  // Sorting entries by key: `sorted(obj.items())` on a dict

  /** Keys strictly ascending in byte order. */
  predicate Ascending<T>(es: seq<Entry<T>>) {
    forall j, k :: 0 <= j < k < |es| ==> Less(es[j].key, es[k].key)
  }

  function Insert<T>(e: Entry<T>, s: seq<Entry<T>>): (r: seq<Entry<T>>)
    ensures |r| == |s| + 1
    decreases |s|
  {
    if s == [] then [e]
    else if Less(s[0].key, e.key) then [s[0]] + Insert(e, s[1..])
    else [e] + s
  }

  /** Inserting adds e and keeps every other entry. */
  lemma {:induction false} InsertPermutes<T>(e: Entry<T>, s: seq<Entry<T>>)
    ensures multiset(Insert(e, s)) == multiset(s) + multiset{e}
    decreases |s|
  {
    if s != [] {
      assert s == [s[0]] + s[1..];
      if Less(s[0].key, e.key) {
        InsertPermutes(e, s[1..]);
      }
    }
  }

  lemma {:induction false} InsertAscending<T>(e: Entry<T>, s: seq<Entry<T>>)
    requires Ascending(s) && Absent(s, e.key)
    ensures Ascending(Insert(e, s))
    decreases |s|
  {
    if s != [] {
      if Less(s[0].key, e.key) {
        var rest := Insert(e, s[1..]);
        InsertAscending(e, s[1..]);
        InsertPermutes(e, s[1..]);
        forall x | x in rest ensures Less(s[0].key, x.key) {
          assert x in multiset(rest);
          if x != e {
            assert x in multiset(s[1..]);
            var k :| 0 <= k < |s[1..]| && s[1..][k] == x;
            assert s[k + 1] == x;
          }
        }
        forall j, k | 0 <= j < k < |[s[0]] + rest| ensures Less(([s[0]] + rest)[j].key, ([s[0]] + rest)[k].key) {
          if j == 0 {
            assert rest[k - 1] in rest;
          }
        }
      } else {
        LessTotal(s[0].key, e.key);
        forall k | 0 <= k < |s| ensures Less(e.key, s[k].key) {
          if k > 0 {
            LessTransitive(e.key, s[0].key, s[k].key);
          }
        }
      }
    }
  }

  /** The entries in ascending key order (Python's sorted over the items;
      keys are distinct, so values are never compared). */
  function SortByKey<T>(es: seq<Entry<T>>): (r: seq<Entry<T>>)
    ensures |r| == |es|
    decreases |es|
  {
    if es == [] then [] else Insert(es[0], SortByKey(es[1..]))
  }

  /** Sorting keeps exactly the entries it was given. */
  lemma {:induction false} SortPermutes<T>(es: seq<Entry<T>>)
    ensures multiset(SortByKey(es)) == multiset(es)
    decreases |es|
  {
    if es != [] {
      assert es == [es[0]] + es[1..];
      SortPermutes(es[1..]);
      InsertPermutes(es[0], SortByKey(es[1..]));
    }
  }

  lemma {:induction false} SortedAscending<T>(es: seq<Entry<T>>)
    requires DistinctKeys(es)
    ensures Ascending(SortByKey(es))
    decreases |es|
  {
    if es != [] {
      var rest := SortByKey(es[1..]);
      SortedAscending(es[1..]);
      SortPermutes(es[1..]);
      forall j | 0 <= j < |rest| ensures rest[j].key != es[0].key {
        assert rest[j] in multiset(es[1..]);
        var k :| 0 <= k < |es[1..]| && es[1..][k] == rest[j];
        assert es[k + 1] == rest[j];
      }
      InsertAscending(es[0], rest);
    }
  }

  lemma {:induction false} SortAscendingIdentity<T>(es: seq<Entry<T>>)
    requires Ascending(es)
    ensures SortByKey(es) == es
    decreases |es|
  {
    if es != [] {
      SortAscendingIdentity(es[1..]);
      if |es| > 1 {
        LessAsymmetric(es[0].key, es[1].key);
      }
    }
  }

  lemma {:induction false} AscendingUnique<T>(a: seq<Entry<T>>, b: seq<Entry<T>>)
    requires Ascending(a) && Ascending(b) && multiset(a) == multiset(b)
    ensures a == b
    decreases |a|
  {
    if a == [] {
      assert |multiset(b)| == 0;
    } else {
      assert b != [] by { assert a[0] in multiset(b); }
      AscendingSameHead(a, b);
      DropHead(a);
      DropHead(b);
      AscendingUnique(a[1..], b[1..]);
    }
  }

  /** Two ascending sequences with the same entries start alike. */
  lemma AscendingSameHead<T>(a: seq<Entry<T>>, b: seq<Entry<T>>)
    requires Ascending(a) && Ascending(b) && multiset(a) == multiset(b)
    requires a != [] && b != []
    ensures a[0] == b[0]
  {
    assert a[0] in multiset(b);
    var j :| 0 <= j < |b| && b[j] == a[0];
    assert b[0] in multiset(a);
    var i :| 0 <= i < |a| && a[i] == b[0];
    if i > 0 && j > 0 {
      LessAsymmetric(a[0].key, b[0].key);
    } else if i > 0 {
      LessIrreflexive(a[0].key);
    } else if j > 0 {
      LessIrreflexive(b[0].key);
    }
  }

  lemma DropHead<T>(a: seq<Entry<T>>)
    requires a != []
    ensures Ascending(a) ==> Ascending(a[1..])
    ensures multiset(a[1..]) == multiset(a) - multiset{a[0]}
  {
    assert a == [a[0]] + a[1..];
  }

  /** Sorting does not depend on insertion order: two dictionaries holding
      the same entries sort to the same sequence. */
  lemma SortIgnoresOrder<T>(a: seq<Entry<T>>, b: seq<Entry<T>>)
    requires DistinctKeys(a) && DistinctKeys(b) && multiset(a) == multiset(b)
    ensures SortByKey(a) == SortByKey(b)
  {
    SortedAscending(a);
    SortedAscending(b);
    SortPermutes(a);
    SortPermutes(b);
    AscendingUnique(SortByKey(a), SortByKey(b));
  }

  // ---------------------------------------------------------------------
  // The canonical encoder (`encode` on ints, bytes, lists and dicts)

  /** `b"%d:%s" % (len(s), s)`. */
  function EncodeString(s: Bytes): Bytes {
    Digits(|s|) + [COLON] + s
  }

  /** A byte string's text: the first colon ends the length prefix, the
      prefix is the payload's length in digits, and the payload follows. */
  lemma EncodeStringLayout(s: Bytes)
    ensures IndexOf(EncodeString(s), COLON, 0) == Some(|Digits(|s|)|)
    ensures EncodeString(s)[..|Digits(|s|)|] == Digits(|s|)
    ensures EncodeString(s)[|Digits(|s|)| + 1..] == s
  {
    var d := Digits(|s|);
    var r := EncodeString(s);
    assert r == (d + [COLON]) + s;
    forall k | 0 <= k < |d| ensures d[k] != COLON {
      assert IsDigit(d[k]);
    }
    assert At(r, 0, d + [COLON]) by {
      forall k | 0 <= k < |d| + 1 ensures r[0 + k] == (d + [COLON])[k] {
      }
    }
    IndexOfAt(r, 0, d, COLON);
  }

  function Encode(v: Value): Bytes
    decreases v, 2
  {
    match v
    case Int(n) => [CHAR_I] + DecimalInt(n) + [CHAR_E]
    case Str(s) => EncodeString(s)
    case List(xs) => [CHAR_L] + EncodeAll(xs) + [CHAR_E]
    case Dict(es) => EncodeDict(es)
  }

  /** The first byte of an encoding tells the value's type; both tokenizers
      dispatch on it. */
  lemma EncodeFirstByte(v: Value)
    ensures Encode(v) != []
    ensures (Encode(v)[0] == CHAR_I) == v.Int?
    ensures (Encode(v)[0] == CHAR_L) == v.List?
    ensures (Encode(v)[0] == CHAR_D) == v.Dict?
    ensures IsDigit(Encode(v)[0]) == v.Str?
  {
    match v
    case Int(n) =>
    case Str(s) =>
      assert Encode(v)[0] == Digits(|s|)[0];
      assert IsDigit(Digits(|s|)[0]);
    case List(xs) =>
    case Dict(es) =>
  }

  /** A dictionary: its entries sorted by key, each key followed by its value. */
  function EncodeDict(es: seq<Entry<Value>>): Bytes
    decreases es, 1
  {
    [CHAR_D] + Join(SortByKey(EncodeValues(es))) + [CHAR_E]
  }

  /** The elements' encodings, concatenated in list order. */
  function EncodeAll(xs: seq<Value>): Bytes
    decreases xs, 0
  {
    if xs == [] then [] else Encode(xs[0]) + EncodeAll(xs[1..])
  }

  /** Each entry with its value encoded; sorting these by key gives the same
      order as sorting the entries themselves (EncodeValuesInsert). */
  function EncodeValues(es: seq<Entry<Value>>): (r: seq<Entry<Bytes>>)
    ensures |r| == |es|
    ensures forall j :: 0 <= j < |es| ==> r[j].key == es[j].key
    decreases es, 0
  {
    if es == [] then [] else [Entry(es[0].key, Encode(es[0].value))] + EncodeValues(es[1..])
  }

  /** `b"".join(encode(k) + encode(v) for k, v in items)` once the values are encoded. */
  function Join(ps: seq<Entry<Bytes>>): Bytes
    decreases |ps|
  {
    if ps == [] then [] else EncodeString(ps[0].key) + ps[0].value + Join(ps[1..])
  }

  /** The first entry of a dictionary body, then the others. */
  lemma JoinFirst(es: seq<Entry<Value>>)
    requires es != []
    ensures Join(EncodeValues(es)) == EncodeString(es[0].key) + Encode(es[0].value) + Join(EncodeValues(es[1..]))
  {
    assert EncodeValues(es)[1..] == EncodeValues(es[1..]);
  }

  // ---------------------------------------------------------------------
  // Well-formed and canonical values

  /** Every dictionary in v has distinct keys: true of every value Python
      can hold, since dict keys are unique. */
  predicate WellFormed(v: Value)
    decreases v
  {
    match v
    case Int(_) => true
    case Str(_) => true
    case List(xs) => forall j :: 0 <= j < |xs| ==> WellFormed(xs[j])
    case Dict(es) => DistinctKeys(es) && forall j :: 0 <= j < |es| ==> WellFormed(es[j].value)
  }

  /** Every dictionary in v already lists its keys in ascending byte order,
      the order decoding canonical bytes produces. */
  predicate Canonical(v: Value)
    decreases v
  {
    match v
    case Int(_) => true
    case Str(_) => true
    case List(xs) => forall j :: 0 <= j < |xs| ==> Canonical(xs[j])
    case Dict(es) => Ascending(es) && forall j :: 0 <= j < |es| ==> Canonical(es[j].value)
  }

  /** The same value with every dictionary's entries in ascending key order:
      equal to v as a Python value, and what decoding encode(v) gives back. */
  function Canonicalize(v: Value): Value
    decreases v
  {
    match v
    case Int(_) => v
    case Str(_) => v
    case List(xs) => List(CanonicalizeAll(xs))
    case Dict(es) => Dict(SortByKey(CanonicalizeValues(es)))
  }

  function CanonicalizeAll(xs: seq<Value>): (r: seq<Value>)
    ensures |r| == |xs|
    decreases xs
  {
    if xs == [] then [] else [Canonicalize(xs[0])] + CanonicalizeAll(xs[1..])
  }

  function CanonicalizeValues(es: seq<Entry<Value>>): (r: seq<Entry<Value>>)
    ensures |r| == |es|
    ensures forall j :: 0 <= j < |es| ==> r[j].key == es[j].key
    decreases es, 0
  {
    if es == [] then [] else [Entry(es[0].key, Canonicalize(es[0].value))] + CanonicalizeValues(es[1..])
  }

  // ---------------------------------------------------------------------
  // What the encoder promises

  /** Sorting commutes with encoding the values, since it looks at keys only. */
  lemma {:induction false} EncodeValuesInsert(e: Entry<Value>, s: seq<Entry<Value>>)
    ensures EncodeValues(Insert(e, s)) == Insert(Entry(e.key, Encode(e.value)), EncodeValues(s))
    decreases |s|
  {
    if s != [] {
      assert EncodeValues(s) == [Entry(s[0].key, Encode(s[0].value))] + EncodeValues(s[1..]);
      if Less(s[0].key, e.key) {
        EncodeValuesInsert(e, s[1..]);
      }
    }
  }

  lemma {:induction false} EncodeValuesSort(es: seq<Entry<Value>>)
    ensures EncodeValues(SortByKey(es)) == SortByKey(EncodeValues(es))
    decreases |es|
  {
    if es != [] {
      EncodeValuesSort(es[1..]);
      EncodeValuesInsert(es[0], SortByKey(es[1..]));
    }
  }

  /** A dictionary is written as its entries in strictly ascending byte
      order of the keys, each key as a byte string followed by its value. */
  lemma EncodeDictAscending(es: seq<Entry<Value>>)
    requires DistinctKeys(es)
    ensures Ascending(SortByKey(es)) && multiset(SortByKey(es)) == multiset(es)
    ensures Encode(Dict(es)) == [CHAR_D] + Join(EncodeValues(SortByKey(es))) + [CHAR_E]
  {
    SortedAscending(es);
    SortPermutes(es);
    EncodeValuesSort(es);
  }

  /** Two dictionaries holding the same entries encode to the same bytes,
      whatever order they were inserted in. */
  lemma EncodeIgnoresOrder(a: seq<Entry<Value>>, b: seq<Entry<Value>>)
    requires DistinctKeys(a) && DistinctKeys(b) && multiset(a) == multiset(b)
    ensures Encode(Dict(a)) == Encode(Dict(b))
  {
    EncodeValuesSort(a);
    EncodeValuesSort(b);
    SortIgnoresOrder(a, b);
  }

  /** Keys b, a and aa, inserted in that order, are written as a, aa, b. */
  lemma EncodeKeyOrderExample(es: seq<Entry<Value>>)
    requires es == [Entry([0x62], Int(1)), Entry([0x61], Int(2)), Entry([0x61, 0x61], Int(3))]
    ensures Encode(Dict(es))
         == [CHAR_D, 0x31, COLON, 0x61, CHAR_I, 0x32, CHAR_E,
             0x32, COLON, 0x61, 0x61, CHAR_I, 0x33, CHAR_E,
             0x31, COLON, 0x62, CHAR_I, 0x31, CHAR_E, CHAR_E]
  {
    SortExample(es);
    EncodeValuesSort(es);
    EncodeValuesExample(SortByKey(es));
    var written := JoinExample(SortByKey(EncodeValues(es)));
    assert Encode(Dict(es)) == [CHAR_D] + written + [CHAR_E];
    FrameExample(written);
  }

  lemma SortExample(es: seq<Entry<Value>>)
    requires es == [Entry([0x62], Int(1)), Entry([0x61], Int(2)), Entry([0x61, 0x61], Int(3))]
    ensures SortByKey(es) == [Entry([0x61], Int(2)), Entry([0x61, 0x61], Int(3)), Entry([0x62], Int(1))]
  {
    var a, aa, b := es[1], es[2], es[0];
    assert Less(a.key, aa.key) && Less(aa.key, b.key) && Less(a.key, b.key) && !Less(aa.key, a.key);
    SortThree(b, a, aa);
  }

  lemma SortThree<T>(x: Entry<T>, y: Entry<T>, z: Entry<T>)
    requires Less(y.key, z.key) && Less(z.key, x.key) && Less(y.key, x.key) && !Less(z.key, y.key)
    ensures SortByKey([x, y, z]) == [y, z, x]
  {
    assert [x, y, z][1..] == [y, z] && [y, z][1..] == [z] && [z][1..] == [];
    assert SortByKey([z]) == [z];
    assert SortByKey([y, z]) == [y, z];
    assert Insert(x, [z]) == [z, x];
  }

  lemma EncodeValuesExample(es: seq<Entry<Value>>)
    requires es == [Entry([0x61], Int(2)), Entry([0x61, 0x61], Int(3)), Entry([0x62], Int(1))]
    ensures EncodeValues(es)
         == [Entry([0x61], [CHAR_I, 0x32, CHAR_E]), Entry([0x61, 0x61], [CHAR_I, 0x33, CHAR_E]), Entry([0x62], [CHAR_I, 0x31, CHAR_E])]
  {
    assert Digits(2) == [0x32];
    assert DecimalInt(2) == [0x32];
    assert Encode(Int(2)) == [CHAR_I, 0x32, CHAR_E];
    assert Encode(Int(3)) == [CHAR_I, 0x33, CHAR_E];
    assert Encode(Int(1)) == [CHAR_I, 0x31, CHAR_E];
    assert EncodeValues(es[2..]) == [Entry(es[2].key, [CHAR_I, 0x31, CHAR_E])];
    assert es[1..][1..] == es[2..];
    assert EncodeValues(es[1..]) == [Entry(es[1].key, [CHAR_I, 0x33, CHAR_E]), Entry(es[2].key, [CHAR_I, 0x31, CHAR_E])];
  }

  lemma JoinExample(ps: seq<Entry<Bytes>>) returns (written: Bytes)
    requires ps == [Entry([0x61], [CHAR_I, 0x32, CHAR_E]), Entry([0x61, 0x61], [CHAR_I, 0x33, CHAR_E]), Entry([0x62], [CHAR_I, 0x31, CHAR_E])]
    ensures written == Join(ps)
    ensures written == [0x31, COLON, 0x61, CHAR_I, 0x32, CHAR_E,
                        0x32, COLON, 0x61, 0x61, CHAR_I, 0x33, CHAR_E,
                        0x31, COLON, 0x62, CHAR_I, 0x31, CHAR_E]
  {
    assert Digits(1) == [0x31] && Digits(2) == [0x32];
    assert EncodeString([0x62]) == [0x31, COLON, 0x62];
    assert EncodeString([0x61, 0x61]) == [0x32, COLON, 0x61, 0x61];
    assert EncodeString([0x61]) == [0x31, COLON, 0x61];
    assert ps[2..][1..] == [];
    assert Join(ps[2..]) == [0x31, COLON, 0x62] + ps[2].value;
    assert ps[1..][1..] == ps[2..];
    assert Join(ps[1..]) == [0x32, COLON, 0x61, 0x61] + ps[1].value + Join(ps[2..]);
    written := Join(ps);
  }

  lemma FrameExample(written: Bytes)
    requires written == [0x31, COLON, 0x61, CHAR_I, 0x32, CHAR_E,
                         0x32, COLON, 0x61, 0x61, CHAR_I, 0x33, CHAR_E,
                         0x31, COLON, 0x62, CHAR_I, 0x31, CHAR_E]
    ensures [CHAR_D] + written + [CHAR_E]
         == [CHAR_D, 0x31, COLON, 0x61, CHAR_I, 0x32, CHAR_E,
             0x32, COLON, 0x61, 0x61, CHAR_I, 0x33, CHAR_E,
             0x31, COLON, 0x62, CHAR_I, 0x31, CHAR_E, CHAR_E]
  {
  }

  lemma {:induction false} AscendingDistinct<T>(es: seq<Entry<T>>)
    requires Ascending(es)
    ensures DistinctKeys(es)
  {
    forall j, k | 0 <= j < k < |es| ensures es[j].key != es[k].key {
      if es[j].key == es[k].key {
        LessIrreflexive(es[j].key);
      }
    }
  }

  /** Canonical values are well formed. */
  lemma {:induction false} CanonicalWellFormed(v: Value)
    requires Canonical(v)
    ensures WellFormed(v)
    decreases v
  {
    match v
    case Int(_) =>
    case Str(_) =>
    case List(xs) =>
      forall j | 0 <= j < |xs| ensures WellFormed(xs[j]) {
        CanonicalWellFormed(xs[j]);
      }
    case Dict(es) =>
      AscendingDistinct(es);
      forall j | 0 <= j < |es| ensures WellFormed(es[j].value) {
        CanonicalWellFormed(es[j].value);
      }
  }

  /** Canonicalizing a canonical value changes nothing. */
  lemma {:induction false} CanonicalizeFixes(v: Value)
    requires Canonical(v)
    ensures Canonicalize(v) == v
    decreases v
  {
    match v
    case Int(_) =>
    case Str(_) =>
    case List(xs) => CanonicalizeAllFixes(xs);
    case Dict(es) =>
      CanonicalizeValuesFixes(es);
      SortAscendingIdentity(es);
  }

  lemma {:induction false} CanonicalizeAllFixes(xs: seq<Value>)
    requires forall j :: 0 <= j < |xs| ==> Canonical(xs[j])
    ensures CanonicalizeAll(xs) == xs
    decreases xs
  {
    if xs != [] {
      CanonicalizeFixes(xs[0]);
      CanonicalizeAllFixes(xs[1..]);
    }
  }

  lemma {:induction false} CanonicalizeValuesFixes(es: seq<Entry<Value>>)
    requires forall j :: 0 <= j < |es| ==> Canonical(es[j].value)
    ensures CanonicalizeValues(es) == es
    decreases es
  {
    if es != [] {
      CanonicalizeFixes(es[0].value);
      CanonicalizeValuesFixes(es[1..]);
    }
  }

  /** Canonicalizing a well-formed value yields a canonical one. */
  lemma {:induction false} CanonicalizeCanonical(v: Value)
    requires WellFormed(v)
    ensures Canonical(Canonicalize(v))
    decreases v
  {
    match v
    case Int(_) =>
    case Str(_) =>
    case List(xs) =>
      var ys := CanonicalizeAll(xs);
      forall j | 0 <= j < |ys| ensures Canonical(ys[j]) {
        CanonicalizeAllAt(xs, j);
        CanonicalizeCanonical(xs[j]);
      }
    case Dict(es) =>
      var cs := CanonicalizeValues(es);
      assert DistinctKeys(cs);
      SortedAscending(cs);
      forall j | 0 <= j < |cs| ensures Canonical(cs[j].value) {
        CanonicalizeValuesAt(es, j);
        CanonicalizeCanonical(es[j].value);
      }
      var r := SortByKey(cs);
      SortPermutes(cs);
      forall j | 0 <= j < |r| ensures Canonical(r[j].value) {
        assert r[j] in multiset(cs);
        var k :| 0 <= k < |cs| && cs[k] == r[j];
      }
  }

  lemma {:induction false} CanonicalizeAllAt(xs: seq<Value>, j: nat)
    requires j < |xs|
    ensures CanonicalizeAll(xs)[j] == Canonicalize(xs[j])
    decreases j
  {
    if j > 0 {
      CanonicalizeAllAt(xs[1..], j - 1);
    }
  }

  lemma {:induction false} CanonicalizeValuesAt(es: seq<Entry<Value>>, j: nat)
    requires j < |es|
    ensures CanonicalizeValues(es)[j] == Entry(es[j].key, Canonicalize(es[j].value))
    decreases j
  {
    if j > 0 {
      CanonicalizeValuesAt(es[1..], j - 1);
    }
  }

  /** Canonicalizing does not change the encoding: the encoder sorts anyway. */
  lemma {:induction false} EncodeCanonicalize(v: Value)
    requires WellFormed(v)
    ensures Encode(Canonicalize(v)) == Encode(v)
    decreases v
  {
    match v
    case Int(_) =>
    case Str(_) =>
    case List(xs) => EncodeAllCanonicalize(xs);
    case Dict(es) =>
      var cs := CanonicalizeValues(es);
      EncodeValuesCanonicalize(es);
      EncodeValuesSort(cs);
      assert DistinctKeys(EncodeValues(es));
      SortedAscending(EncodeValues(es));
      SortAscendingIdentity(SortByKey(EncodeValues(es)));
  }

  lemma {:induction false} EncodeAllCanonicalize(xs: seq<Value>)
    requires forall j :: 0 <= j < |xs| ==> WellFormed(xs[j])
    ensures EncodeAll(CanonicalizeAll(xs)) == EncodeAll(xs)
    decreases xs
  {
    if xs != [] {
      EncodeCanonicalize(xs[0]);
      EncodeAllCanonicalize(xs[1..]);
    }
  }

  lemma {:induction false} EncodeValuesCanonicalize(es: seq<Entry<Value>>)
    requires forall j :: 0 <= j < |es| ==> WellFormed(es[j].value)
    ensures EncodeValues(CanonicalizeValues(es)) == EncodeValues(es)
    decreases es
  {
    if es != [] {
      EncodeCanonicalize(es[0].value);
      EncodeValuesCanonicalize(es[1..]);
    }
  }

  // ---------------------------------------------------------------------
  // Token streams, as the decoders pull them

  /** Everything a token generator still does when pulled to the end: the
      tokens it yields, in order, and what the pull after the last token
      raises: StopIteration (Exhausted) when the generator ran off the end
      of its input, otherwise the exception the tokenizer raised. The
      generator is deterministic and does nothing else, so pulling it
      lazily is pulling this stream, and a decoder error at an earlier pull
      still comes before a tokenizer error further on. */
  datatype Stream = Stream(tokens: seq<Bytes>, stop: Error)

  /** `next()` on the generator: its next token, or what it raises. */
  function Pull(s: Stream): (r: Result<Bytes, Error>)
    ensures r.Success? <==> s.tokens != []
    ensures r.Success? ==> r.value == s.tokens[0]
    ensures r.Failure? ==> r.error == s.stop
  {
    if s.tokens == [] then Failure(s.stop) else Success(s.tokens[0])
  }

  /** The generator after that `next()`; one that has raised raises the
      same exception again. */
  function Rest(s: Stream): (r: Stream)
    ensures r.stop == s.stop
    ensures |r.tokens| == if s.tokens == [] then 0 else |s.tokens| - 1
  {
    if s.tokens == [] then s else Stream(s.tokens[1..], s.stop)
  }

  /** The stream that yields ts and then behaves as s. */
  function Then(ts: seq<Bytes>, s: Stream): (r: Stream)
    ensures |r.tokens| == |ts| + |s.tokens| && r.stop == s.stop
  {
    Stream(ts + s.tokens, s.stop)
  }

  lemma ThenThen(a: seq<Bytes>, b: seq<Bytes>, s: Stream)
    ensures Then(a, Then(b, s)) == Then(a + b, s)
  {
    assert a + (b + s.tokens) == (a + b) + s.tokens;
  }

  lemma ThenNothing(s: Stream)
    ensures Then([], s) == s
  {
    assert [] + s.tokens == s.tokens;
  }

  /** Pulling from Then(ts, s) hands out ts first. */
  /** Pushing the token `next()` returned back in front of the generator
      gives the generator back; one that raised is left as it was. */
  lemma PullRest(s: Stream)
    ensures Pull(s).Success? ==> Then([Pull(s).value], Rest(s)) == s
    ensures Pull(s).Failure? ==> Rest(s) == s
  {
    if s.tokens != [] {
      assert [s.tokens[0]] + s.tokens[1..] == s.tokens;
    }
  }

  lemma PullThen(ts: seq<Bytes>, s: Stream)
    requires ts != []
    ensures Pull(Then(ts, s)) == Success(ts[0])
    ensures Rest(Then(ts, s)) == Then(ts[1..], s)
  {
    assert (ts + s.tokens)[1..] == ts[1..] + s.tokens;
  }

  /** The tokens one pass of a tokenizer's loop body yields and the offset
      it leaves the loop at. */
  datatype Lexeme = Lexeme(tokens: seq<Bytes>, next: nat)

  /** The `e` that closes a list or dictionary. */
  lemma PullClose(rest: Stream)
    ensures Pull(Then([[CHAR_E]], rest)) == Success([CHAR_E])
    ensures Rest(Then([[CHAR_E]], rest)) == rest
  {
    PullThen([[CHAR_E]], rest);
    ThenNothing(rest);
  }

  /** A decoded value and the generator as it is once the value is
      complete. */
  datatype Decoded = Decoded(value: Value, rest: Stream)

  function Outcome(d: Result<Decoded, Error>): Result<Value, Error> {
    match d
    case Success(x) => Success(x.value)
    case Failure(e) => Failure(e)
  }

  /** Tokens a, then tokens b. */
  lemma Chained(a: seq<Bytes>, b: seq<Bytes>, s0: Stream, s1: Stream, s2: Stream)
    requires s0 == Then(a, s1) && s1 == Then(b, s2)
    ensures s0 == Then(a + b, s2)
  {
    ThenThen(a, b, s2);
  }

  /** The tokens both tokenizers yield for the encoding of v, were its
      dictionaries written with their entries in their present order. */
  function Tokens(v: Value): seq<Bytes>
    decreases v
  {
    match v
    case Int(n) => [[CHAR_I], DecimalInt(n), [CHAR_E]]
    case Str(s) => [[CHAR_S], s]
    case List(xs) => [[CHAR_L]] + TokensAll(xs) + [[CHAR_E]]
    case Dict(es) => [[CHAR_D]] + TokensEntries(es) + [[CHAR_E]]
  }

  function TokensAll(xs: seq<Value>): seq<Bytes>
    decreases xs
  {
    if xs == [] then [] else Tokens(xs[0]) + TokensAll(xs[1..])
  }

  function TokensEntries(es: seq<Entry<Value>>): seq<Bytes>
    decreases es
  {
    if es == [] then [] else [[CHAR_S], es[0].key] + Tokens(es[0].value) + TokensEntries(es[1..])
  }

  /** A value's tokens never start with the end marker. */
  lemma TokensStart(v: Value)
    ensures |Tokens(v)| > 0 && Tokens(v)[0] != [CHAR_E]
  {
    match v
    case Int(_) =>
    case Str(_) =>
    case List(xs) => assert Tokens(v)[0] == [CHAR_L];
    case Dict(es) => assert Tokens(v)[0] == [CHAR_D];
  }

  /** For a canonical value, the encoding writes the dictionary entries in
      their present order. */
  lemma EncodeCanonicalDict(es: seq<Entry<Value>>)
    requires Ascending(es)
    ensures Encode(Dict(es)) == [CHAR_D] + Join(EncodeValues(es)) + [CHAR_E]
  {
    EncodeValuesSort(es);
    SortAscendingIdentity(es);
  }

  // ---------------------------------------------------------------------
  // The info subtree (the selection in `main`)

  /** `b"info" in torrent` then `torrent[b"info"]`, with Python's meaning of
      `in` and `[]` on each kind of value: only a dictionary with an info key
      yields a subtree; a torrent without one is refused with
      InvalidFileException; a list holding b"info", a byte string containing
      it, or an int raise TypeError. */
  function SelectInfo(torrent: Value): (r: Result<Value, Error>)
    ensures r.Success? <==> torrent.Dict? && !Absent(torrent.entries, INFO)
    ensures r.Success? ==> Entry(INFO, r.value) in torrent.entries
    ensures torrent.Dict? && Absent(torrent.entries, INFO) ==> r == Failure(MissingInfo)
  {
    match torrent
    case Dict(es) =>
      (match Lookup(es, INFO)
       case Some(info) => Success(info)
       case None => Failure(MissingInfo))
    case List(xs) => if Str(INFO) in xs then Failure(InfoTypeError) else Failure(MissingInfo)
    case Str(s) => if Contains(s, INFO) then Failure(InfoTypeError) else Failure(MissingInfo)
    case Int(_) => Failure(InfoTypeError)
  }
}
