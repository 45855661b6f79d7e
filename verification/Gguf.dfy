/** Metadata in a GGUF file: what a stored value is, how it is written, and how it is read back. */
module Gguf {
  import opened Options
  import opened Bytes

  // --- Values and their bytes ------------------------------------------------

  /** A read value. Floating-point numbers stay as their bytes; long arrays keep only their length. */
  datatype Value =
    | Int(n: int)
    | Flag(b: bool)
    | Float(bits: Bytes)
    | Text(text: string)
    | Items(items: seq<Option<Value>>)
    | Summary(length: nat)

  datatype ReadError = Truncated | StringTooLong

  const MAX_STRING := 10000
  const SHOWN_ITEMS := 10
  const MAX_PAIRS := 200
  const MAGIC := 0x46554747

  datatype Scalar = Unsigned | Signed | Boolean | Floating

  /** The fixed-width types, by their code; strings are 8 and arrays 9. */
  function ScalarOf(code: nat): Option<(Scalar, nat)> {
    match code
    case 0 => Some((Unsigned, 1))
    case 1 => Some((Signed, 1))
    case 2 => Some((Unsigned, 2))
    case 3 => Some((Signed, 2))
    case 4 => Some((Unsigned, 4))
    case 5 => Some((Signed, 4))
    case 6 => Some((Floating, 4))
    case 7 => Some((Boolean, 1))
    case 10 => Some((Unsigned, 8))
    case 11 => Some((Signed, 8))
    case 12 => Some((Floating, 8))
    case _ => None
  }

  const STRING_CODE: nat := 8
  const ARRAY_CODE: nat := 9

  function Interpret(kind: Scalar, raw: Bytes): Value {
    var n := FromLittleEndian(raw);
    match kind
    case Unsigned => Int(n)
    case Signed => Int(if 2 * n < Pow256(|raw|) then n else n - Pow256(|raw|))
    case Boolean => Flag(n != 0)
    case Floating => Float(raw)
  }

  // --- Reading, as a function of the position --------------------------------

  /** Bytes decode to text by some function; undecodable ones are replaced, so it is total. */
  type Decoding = Bytes -> string

  type Parsed<T> = Result<(T, nat), ReadError>

  /** Exactly `width` bytes as a number. */
  function ParseNat(data: Bytes, pos: nat, width: nat): (r: Parsed<nat>)
    requires pos <= |data|
    ensures r.Ok? ==> r.value.1 == pos + width <= |data|
  {
    if pos + width > |data| then Err(Truncated)
    else Ok((FromLittleEndian(data[pos..pos + width]), pos + width))
  }

  /** A length-prefixed string; at the end of the file it is silently shorter than its length says. */
  function ParseString(data: Bytes, pos: nat, decode: Decoding): (r: Parsed<string>)
    requires pos <= |data|
    ensures r.Ok? ==> pos <= r.value.1 <= |data|
  {
    match ParseNat(data, pos, 8)
    case Err(e) => Err(e)
    case Ok((length, start)) =>
      if length > MAX_STRING then Err(StringTooLong)
      else
        var end := if start + length <= |data| then start + length else |data|;
        Ok((decode(data[start..end]), end))
  }

  /** A value of unknown type takes no bytes and has no value. */
  function ParseValue(data: Bytes, pos: nat, code: nat, decode: Decoding): (r: Parsed<Option<Value>>)
    requires pos <= |data|
    ensures r.Ok? ==> pos <= r.value.1 <= |data|
    decreases |data| - pos, 0, 0
  {
    match ScalarOf(code)
    case Some((kind, width)) =>
      if pos + width > |data| then Err(Truncated)
      else Ok((Some(Interpret(kind, data[pos..pos + width])), pos + width))
    case None =>
      if code == STRING_CODE then
        match ParseString(data, pos, decode)
        case Err(e) => Err(e)
        case Ok((text, end)) => Ok((Some(Text(text)), end))
      else if code == ARRAY_CODE then
        match ParseNat(data, pos, 4)
        case Err(e) => Err(e)
        case Ok((element, afterType)) =>
          match ParseNat(data, afterType, 8)
          case Err(e) => Err(e)
          case Ok((length, start)) =>
            match ParseItems(data, start, element, length, decode)
            case Err(e) => Err(e)
            case Ok((items, end)) => Ok((Some(Listed(items)), end))
      else Ok((None, pos))
  }

  function ParseItems(data: Bytes, pos: nat, code: nat, n: nat, decode: Decoding): (r: Parsed<seq<Option<Value>>>)
    requires pos <= |data|
    ensures r.Ok? ==> pos <= r.value.1 <= |data| && |r.value.0| == n
    decreases |data| - pos, 1, n
  {
    if n == 0 then Ok(([], pos))
    else
      match ParseValue(data, pos, code, decode)
      case Err(e) => Err(e)
      case Ok((first, next)) =>
        match ParseItems(data, next, code, n - 1, decode)
        case Err(e) => Err(e)
        case Ok((rest, end)) => Ok(([first] + rest, end))
  }

  /** Arrays of more than ten elements are read through but not kept. */
  function Listed(items: seq<Option<Value>>): Value {
    if |items| <= SHOWN_ITEMS then Items(items) else Summary(|items|)
  }

  // --- Well-formed values ----------------------------------------------------

  datatype Tree =
    | Number(kind: Scalar, width: nat, n: int)
    | Raw(bits: Bytes)
    | Chars(bytes: Bytes)
    | Array(element: nat, elements: seq<Tree>)

  /** The type code a value is stored under. */
  function CodeOf(t: Tree): nat {
    match t
    case Number(Unsigned, w, _) => if w == 1 then 0 else if w == 2 then 2 else if w == 4 then 4 else 10
    case Number(Signed, w, _) => if w == 1 then 1 else if w == 2 then 3 else if w == 4 then 5 else 11
    case Number(_, _, _) => 7
    case Raw(bits) => if |bits| == 4 then 6 else 12
    case Chars(_) => STRING_CODE
    case Array(_, _) => ARRAY_CODE
  }

  predicate WellFormed(t: Tree) {
    match t
    case Number(Unsigned, w, n) => w in {1, 2, 4, 8} && 0 <= n < Pow256(w)
    case Number(Signed, w, n) => w in {1, 2, 4, 8} && 0 <= 2 * n + Pow256(w) < 2 * Pow256(w)
    case Number(Boolean, w, n) => w == 1 && 0 <= n < 256
    case Number(Floating, _, _) => false
    case Raw(bits) => |bits| in {4, 8}
    case Chars(bytes) => |bytes| <= 10_000
    case Array(element, elements) =>
      && element < Pow256(4) && |elements| < Pow256(8)
      && forall e :: e in elements ==> WellFormed(e) && CodeOf(e) == element
  }

  function Encode(t: Tree): Bytes
    requires WellFormed(t)
  {
    match t
    case Number(_, w, n) => LittleEndian(if n < 0 then n + Pow256(w) else n, w)
    case Raw(bits) => bits
    case Chars(bytes) => LittleEndian(|bytes|, 8) + bytes
    case Array(element, elements) => LittleEndian(element, 4) + LittleEndian(|elements|, 8) + EncodeAll(elements)
  }

  function EncodeAll(ts: seq<Tree>): Bytes
    requires forall t :: t in ts ==> WellFormed(t)
  {
    if ts == [] then [] else Encode(ts[0]) + EncodeAll(ts[1..])
  }

  /** What a reader should get for a stored value. */
  function Meaning(t: Tree, decode: Decoding): Value
    requires WellFormed(t)
  {
    match t
    case Number(Boolean, _, n) => Flag(n != 0)
    case Number(_, _, n) => Int(n)
    case Raw(bits) => Float(bits)
    case Chars(bytes) => Text(decode(bytes))
    case Array(_, elements) => if |elements| <= 10 then Items(Meanings(elements, decode)) else Summary(|elements|)
  }

  function Meanings(ts: seq<Tree>, decode: Decoding): (values: seq<Option<Value>>)
    requires forall t :: t in ts ==> WellFormed(t)
    ensures |values| == |ts|
  {
    if ts == [] then [] else [Some(Meaning(ts[0], decode))] + Meanings(ts[1..], decode)
  }

  // --- Reading stays aligned -------------------------------------------------

  predicate At(data: Bytes, pos: nat, part: Bytes) {
    pos + |part| <= |data| && data[pos..pos + |part|] == part
  }

  lemma AtSplit(data: Bytes, pos: nat, a: Bytes, b: Bytes)
    requires At(data, pos, a + b)
    ensures At(data, pos, a) && At(data, pos + |a|, b)
  {
    assert a == (a + b)[..|a|] && b == (a + b)[|a|..];
    assert data[pos..pos + |a|] == data[pos..pos + |a + b|][..|a|];
    assert data[pos + |a|..pos + |a| + |b|] == data[pos..pos + |a + b|][|a|..];
  }

  lemma NatAt(data: Bytes, pos: nat, n: nat, width: nat)
    requires n < Pow256(width) && At(data, pos, LittleEndian(n, width))
    ensures ParseNat(data, pos, width) == Ok((n, pos + width))
  {
    LittleEndianReads(n, width);
  }

  lemma NumberAt(t: Tree, data: Bytes, pos: nat, decode: Decoding)
    requires WellFormed(t) && t.Number? && At(data, pos, Encode(t))
    ensures ParseValue(data, pos, CodeOf(t), decode) == Ok((Some(Meaning(t, decode)), pos + |Encode(t)|))
  {
    hide FromLittleEndian, LittleEndian;
    var stored: nat := if t.n < 0 then t.n + Pow256(t.width) else t.n;
    LittleEndianReads(stored, t.width);
    Powers();
    hide Pow256;
    assert ScalarOf(CodeOf(t)) == Some((t.kind, t.width));
  }

  lemma StringAt(bytes: Bytes, data: Bytes, pos: nat, decode: Decoding)
    requires |bytes| <= MAX_STRING && At(data, pos, LittleEndian(|bytes|, 8) + bytes)
    ensures ParseString(data, pos, decode) == Ok((decode(bytes), pos + 8 + |bytes|))
  {
    hide LittleEndian, Pow256, ParseNat;
    Powers();
    AtSplit(data, pos, LittleEndian(|bytes|, 8), bytes);
    NatAt(data, pos, |bytes|, 8);
  }

  /** A length above 10,000 fails, and a string cut off by the end of the file is silently shorter. */
  lemma StringCutShort(data: Bytes, pos: nat, decode: Decoding)
    requires pos + 8 <= |data|
    ensures var length := FromLittleEndian(data[pos..pos + 8]);
            && (length > 10_000 ==> ParseString(data, pos, decode) == Err(StringTooLong))
            && (length <= 10_000 && pos + 8 + length > |data| ==>
                  ParseString(data, pos, decode) == Ok((decode(data[pos + 8..]), |data|)))
  {
    assert data[pos + 8..] == data[pos + 8..|data|];
  }

  /** A type code beyond the thirteen known ones has no value and no bytes, so its pair is skipped. */
  lemma UnknownTypeIsSkipped(data: Bytes, pos: nat, code: nat, n: nat, metadata: Metadata, decode: Decoding)
    requires pos <= |data| && code > 12
    ensures ParseValue(data, pos, code, decode) == Ok((None, pos))
    ensures n > 0 && ParseString(data, pos, decode).Ok? ==>
              var (key, next) := ParseString(data, pos, decode).value;
              ParseNat(data, next, 4) == Ok((code, next + 4)) ==>
                ParsePairs(data, pos, n, metadata, decode) == ParsePairs(data, next + 4, n - 1, metadata, decode)
  {
    hide ParseNat, ParseString;
  }

  /** Reading a stored value yields it and stops exactly at its end, wherever it is stored. */
  lemma {:induction false} ValueAt(t: Tree, data: Bytes, pos: nat, decode: Decoding)
    requires WellFormed(t) && At(data, pos, Encode(t))
    ensures ParseValue(data, pos, CodeOf(t), decode) == Ok((Some(Meaning(t, decode)), pos + |Encode(t)|))
    decreases t
  {
    match t {
      case Number(_, _, _) => NumberAt(t, data, pos, decode);
      case Raw(bits) =>
      case Chars(bytes) => StringAt(bytes, data, pos, decode);
      case Array(element, elements) =>
        hide LittleEndian, ParseNat, Pow256, EncodeAll;
        var head, counted := LittleEndian(element, 4), LittleEndian(|elements|, 8);
        AtSplit(data, pos, head + counted, EncodeAll(elements));
        AtSplit(data, pos, head, counted);
        NatAt(data, pos, element, 4);
        NatAt(data, pos + 4, |elements|, 8);
        ItemsAt(elements, element, data, pos + 12, decode);
    }
  }

  lemma {:induction false} ItemsAt(ts: seq<Tree>, code: nat, data: Bytes, pos: nat, decode: Decoding)
    requires forall t :: t in ts ==> WellFormed(t) && CodeOf(t) == code
    requires At(data, pos, EncodeAll(ts))
    ensures ParseItems(data, pos, code, |ts|, decode) == Ok((Meanings(ts, decode), pos + |EncodeAll(ts)|))
    decreases ts
  {
    hide Encode, Meaning, ParseValue;
    if ts != [] {
      AtSplit(data, pos, Encode(ts[0]), EncodeAll(ts[1..]));
      ValueAt(ts[0], data, pos, decode);
      ItemsAt(ts[1..], code, data, pos + |Encode(ts[0])|, decode);
    }
  }

  // --- The header ------------------------------------------------------------

  type Metadata = map<string, Value>

  function Entered(metadata: Metadata, key: string, value: Option<Value>): Metadata {
    if key != "" && value.Some? then metadata[key := value.value] else metadata
  }

  /** Up to `n` pairs, the last of equal keys winning; a malformed pair ends the reading. */
  function ParsePairs(data: Bytes, pos: nat, n: nat, metadata: Metadata, decode: Decoding): Metadata
    requires pos <= |data|
    decreases n
  {
    if n == 0 then metadata
    else
      match ParseString(data, pos, decode)
      case Err(_) => metadata
      case Ok((key, afterKey)) =>
        match ParseNat(data, afterKey, 4)
        case Err(_) => metadata
        case Ok((code, afterCode)) =>
          match ParseValue(data, afterCode, code, decode)
          case Err(_) => metadata
          case Ok((value, end)) => ParsePairs(data, end, n - 1, Entered(metadata, key, value), decode)
  }

  function ParseHeader(data: Bytes, decode: Decoding): Metadata {
    match ParseNat(data, 0, 4)
    case Err(_) => map[]
    case Ok((magic, p4)) =>
      if magic != MAGIC then map[]
      else
        match ParseNat(data, p4, 4)
        case Err(_) => map[]
        case Ok((version, p8)) =>
          var versioned: Metadata := map["_gguf_version" := Int(version)];
          match ParseNat(data, p8, 8)
          case Err(_) => versioned
          case Ok((tensors, p16)) =>
            match ParseNat(data, p16, 8)
            case Err(_) => versioned
            case Ok((pairs, p24)) =>
              ParsePairs(data, p24, if pairs < MAX_PAIRS then pairs else MAX_PAIRS,
                         versioned["_tensor_count" := Int(tensors)], decode)
  }

  datatype Pair = Pair(key: Bytes, value: Tree)

  predicate WellFormedPair(p: Pair) {
    |p.key| <= 10_000 && WellFormed(p.value)
  }

  function EncodePair(p: Pair): Bytes
    requires WellFormedPair(p)
  {
    LittleEndian(|p.key|, 8) + p.key + LittleEndian(CodeOf(p.value), 4) + Encode(p.value)
  }

  function EncodePairs(ps: seq<Pair>): Bytes
    requires forall p :: p in ps ==> WellFormedPair(p)
  {
    if ps == [] then [] else EncodePair(ps[0]) + EncodePairs(ps[1..])
  }

  type Entries = seq<(string, Value)>

  /** The keys and values that pairs stand for. */
  function ReadAs(ps: seq<Pair>, decode: Decoding): (entries: Entries)
    requires forall p :: p in ps ==> WellFormedPair(p)
    ensures |entries| == |ps|
  {
    if ps == [] then []
    else
      assert WellFormedPair(ps[0]);
      [(decode(ps[0].key), Meaning(ps[0].value, decode))] + ReadAs(ps[1..], decode)
  }

  /** Entered one after the other. */
  function Dictionary(metadata: Metadata, entries: Entries): Metadata
    decreases |entries|
  {
    if entries == [] then metadata
    else Dictionary(Entered(metadata, entries[0].0, Some(entries[0].1)), entries[1..])
  }

  /** `count` is what the header announces; fewer or more pairs may follow. */
  function EncodeHeader(version: nat, tensors: nat, count: nat, ps: seq<Pair>): Bytes
    requires forall p :: p in ps ==> WellFormedPair(p)
  {
    LittleEndian(MAGIC, 4) + LittleEndian(version, 4) + LittleEndian(tensors, 8) + LittleEndian(count, 8)
    + EncodePairs(ps)
  }

  lemma PairAt(p: Pair, data: Bytes, pos: nat, n: nat, metadata: Metadata, decode: Decoding)
    requires WellFormedPair(p) && At(data, pos, EncodePair(p)) && n > 0
    ensures ParsePairs(data, pos, n, metadata, decode)
            == ParsePairs(data, pos + |EncodePair(p)|, n - 1,
                          Entered(metadata, decode(p.key), Some(Meaning(p.value, decode))), decode)
  {
    hide Encode, LittleEndian, Meaning, ParseValue, ParseNat, ParseString;
    var key, code := LittleEndian(|p.key|, 8) + p.key, LittleEndian(CodeOf(p.value), 4);
    AtSplit(data, pos, key + code, Encode(p.value));
    AtSplit(data, pos, key, code);
    StringAt(p.key, data, pos, decode);
    Powers();
    NatAt(data, pos + |key|, CodeOf(p.value), 4);
    ValueAt(p.value, data, pos + |key| + 4, decode);
  }

  lemma PairsCons(ps: seq<Pair>)
    requires ps != [] && forall p :: p in ps ==> WellFormedPair(p)
    ensures WellFormedPair(ps[0]) && WellFormed(ps[0].value) && EncodePairs(ps) == EncodePair(ps[0]) + EncodePairs(ps[1..])
  {
    hide EncodePair;
  }

  lemma NoPairs(data: Bytes, pos: nat, metadata: Metadata, decode: Decoding)
    requires pos <= |data|
    ensures ParsePairs(data, pos, 0, metadata, decode) == metadata == Dictionary(metadata, [])
  {
  }

  lemma DictionaryStep(metadata: Metadata, ps: seq<Pair>, n: nat, decode: Decoding)
    requires (forall p :: p in ps ==> WellFormedPair(p)) && 0 < n <= |ps|
    ensures WellFormedPair(ps[0])
    ensures Dictionary(metadata, ReadAs(ps, decode)[..n])
            == Dictionary(Entered(metadata, decode(ps[0].key), Some(Meaning(ps[0].value, decode))), ReadAs(ps[1..], decode)[..n - 1])
  {
    hide Meaning, WellFormedPair;
    var entries := ReadAs(ps, decode);
    assert entries[..n][0] == entries[0] && entries[..n][1..] == entries[1..][..n - 1];
    assert entries[1..] == ReadAs(ps[1..], decode);
  }

  /** Bytes that cannot begin a pair: too few for a length, or too great a length. */
  predicate Malformed(rest: Bytes) {
    |rest| < 8 || FromLittleEndian(rest[..8]) > 10_000
  }

  lemma MalformedEnds(data: Bytes, pos: nat, n: nat, metadata: Metadata, decode: Decoding)
    requires pos <= |data| && Malformed(data[pos..])
    ensures ParsePairs(data, pos, n, metadata, decode) == metadata
  {
    hide FromLittleEndian;
    assert |data| - pos >= 8 ==> data[pos..][..8] == data[pos..pos + 8];
  }

  function Fewer(a: nat, b: nat): nat {
    if a < b then a else b
  }

  lemma NoPairsLeft(ps: seq<Pair>, data: Bytes, pos: nat)
    requires ps == [] && At(data, pos, EncodePairs(ps))
    ensures pos <= |data| && pos + |EncodePairs(ps)| == pos
  {
  }

  lemma {:induction false} PairsAt(ps: seq<Pair>, data: Bytes, pos: nat, n: nat, metadata: Metadata, decode: Decoding)
    requires forall p :: p in ps ==> WellFormedPair(p)
    requires At(data, pos, EncodePairs(ps)) && (n <= |ps| || Malformed(data[pos + |EncodePairs(ps)|..]))
    ensures ParsePairs(data, pos, n, metadata, decode) == Dictionary(metadata, ReadAs(ps, decode)[..Fewer(n, |ps|)])
    decreases n
  {
    hide EncodePair, EncodePairs, ParsePairs, Dictionary, ReadAs, Meaning, Entered, WellFormedPair, Malformed;
    if n == 0 || ps == [] {
      NoPairs(data, pos, metadata, decode);
      assert ReadAs(ps, decode)[..0] == [];
      if n > 0 {
        NoPairsLeft(ps, data, pos);
        MalformedEnds(data, pos, n, metadata, decode);
      }
    } else {
      PairsCons(ps);
      AtSplit(data, pos, EncodePair(ps[0]), EncodePairs(ps[1..]));
      PairAt(ps[0], data, pos, n, metadata, decode);
      var entered := Entered(metadata, decode(ps[0].key), Some(Meaning(ps[0].value, decode)));
      PairsAt(ps[1..], data, pos + |EncodePair(ps[0])|, n - 1, entered, decode);
      DictionaryStep(metadata, ps, Fewer(n, |ps|), decode);
    }
  }

  lemma CountsAt(version: nat, tensors: nat, n: nat, data: Bytes, pairs: Bytes)
    requires version < Pow256(4) && tensors < Pow256(8) && n < Pow256(8)
    requires var header := LittleEndian(MAGIC, 4) + LittleEndian(version, 4) + LittleEndian(tensors, 8)
                           + LittleEndian(n, 8) + pairs;
             header <= data
    ensures |data| >= 24 && ParseNat(data, 0, 4) == Ok((MAGIC, 4)) && ParseNat(data, 4, 4) == Ok((version, 8))
    ensures ParseNat(data, 8, 8) == Ok((tensors, 16)) && ParseNat(data, 16, 8) == Ok((n, 24))
    ensures At(data, 24, pairs)
  {
    Powers();
    hide LittleEndian, ParseNat, Pow256;
    var m, v, t, c := LittleEndian(MAGIC, 4), LittleEndian(version, 4), LittleEndian(tensors, 8), LittleEndian(n, 8);
    assert At(data, 0, m + v + t + c + pairs);
    AtSplit(data, 0, m + v + t + c, pairs);
    AtSplit(data, 0, m + v + t, c);
    AtSplit(data, 0, m + v, t);
    AtSplit(data, 0, m, v);
    NatAt(data, 0, MAGIC, 4);
    NatAt(data, 4, version, 4);
    NatAt(data, 8, tensors, 8);
    NatAt(data, 16, n, 8);
  }

  predicate Named(entries: Entries, key: string) {
    exists k :: 0 <= k < |entries| && entries[k].0 == key
  }

  /** The `k`-th entry has a key, and no later one has the same. */
  predicate IsLast(entries: Entries, k: nat)
    requires k < |entries|
  {
    entries[k].0 != "" && forall m :: k < m < |entries| ==> entries[m].0 != entries[k].0
  }

  /** `result` is `start` overwritten by the entries, the last of equal keys winning, and nothing else. */
  ghost predicate Overwritten(result: Metadata, start: Metadata, entries: Entries) {
    && (forall key :: key in result <==> key in start || (key != "" && Named(entries, key)))
    && (forall key :: key in start && (key == "" || !Named(entries, key)) ==> key in result && result[key] == start[key])
    && (forall k :: 0 <= k < |entries| && IsLast(entries, k) ==>
          entries[k].0 in result && result[entries[k].0] == entries[k].1)
  }

  lemma NothingEntered(metadata: Metadata)
    ensures Dictionary(metadata, []) == metadata && Overwritten(metadata, metadata, [])
  {
  }

  lemma {:induction false} DictionaryIsExact(metadata: Metadata, entries: Entries)
    ensures Overwritten(Dictionary(metadata, entries), metadata, entries)
    decreases |entries|
  {
    if entries == [] {
      NothingEntered(metadata);
    } else {
      hide Overwritten, Entered, Dictionary;
      var n := |entries| - 1;
      DictionaryLast(metadata, entries);
      DictionaryIsExact(metadata, entries[..n]);
      var (key, value) := entries[n];
      assert entries[..n] + [(key, value)] == entries;
      OneMoreEntry(Dictionary(metadata, entries[..n]), metadata, entries[..n], key, value);
    }
  }

  lemma {:induction false} DictionaryLast(metadata: Metadata, entries: Entries)
    requires entries != []
    ensures var n := |entries| - 1;
            Dictionary(metadata, entries) == Entered(Dictionary(metadata, entries[..n]), entries[n].0, Some(entries[n].1))
    decreases |entries|
  {
    hide Entered;
    var n := |entries| - 1;
    if n > 0 {
      DictionaryLast(Entered(metadata, entries[0].0, Some(entries[0].1)), entries[1..]);
      assert entries[1..][..n - 1] == entries[..n][1..];
    }
  }

  lemma NamedSnoc(entries: Entries, last: string, value: Value, key: string)
    ensures Named(entries + [(last, value)], key) <==> Named(entries, key) || key == last
  {
    var longer := entries + [(last, value)];
    assert longer[|entries|].0 == last;
    assert forall k :: 0 <= k < |entries| ==> longer[k] == entries[k];
    if Named(entries, key) {
      var k :| 0 <= k < |entries| && entries[k].0 == key;
      assert longer[k].0 == key;
    }
  }

  lemma OneMoreEntry(before: Metadata, start: Metadata, entries: Entries, key: string, value: Value)
    requires Overwritten(before, start, entries)
    ensures Overwritten(Entered(before, key, Some(value)), start, entries + [(key, value)])
  {
    var result, longer := Entered(before, key, Some(value)), entries + [(key, value)];
    forall other ensures Named(longer, other) <==> Named(entries, other) || other == key {
      NamedSnoc(entries, key, value, other);
    }
    forall k | 0 <= k < |longer| && IsLast(longer, k)
      ensures longer[k].0 in result && result[longer[k].0] == longer[k].1
    {
      if k < |entries| {
        assert longer[|entries|].0 != longer[k].0;
        assert forall m :: k < m < |entries| ==> entries[m] == longer[m];
        assert IsLast(entries, k);
      }
    }
    hide Named, IsLast;
  }

  /**
   What reading a header gives, key by key. Of the pairs that follow the announced count, the first
   200 count, or as many as are well-formed before a malformed one. A key is present exactly if it is
   one of the two built-in ones or the non-empty key of such a pair, and has the value of the last.
   */
  lemma HeaderReadsBack(version: nat, tensors: nat, count: nat, ps: seq<Pair>, rest: Bytes, decode: Decoding)
    requires version < Pow256(4) && tensors < Pow256(8) && count < Pow256(8)
    requires forall p :: p in ps ==> WellFormedPair(p)
    requires count <= |ps| || 200 <= |ps| || Malformed(rest)
    ensures Overwritten(ParseHeader(EncodeHeader(version, tensors, count, ps) + rest, decode),
                        map["_gguf_version" := Int(version), "_tensor_count" := Int(tensors)],
                        ReadAs(ps, decode)[..Fewer(Fewer(count, 200), |ps|)])
  {
    hide LittleEndian, EncodePairs, Dictionary, ReadAs, ParseNat, ParsePairs, WellFormedPair, Overwritten, Malformed;
    var data := EncodeHeader(version, tensors, count, ps) + rest;
    CountsAt(version, tensors, count, data, EncodePairs(ps));
    assert data[24 + |EncodePairs(ps)|..] == rest;
    var n := if count < MAX_PAIRS then count else MAX_PAIRS;
    var start: Metadata := map["_gguf_version" := Int(version)];
    PairsAt(ps, data, 24, n, start["_tensor_count" := Int(tensors)], decode);
    assert start["_tensor_count" := Int(tensors)] == map["_gguf_version" := Int(version), "_tensor_count" := Int(tensors)];
    DictionaryIsExact(start["_tensor_count" := Int(tensors)], ReadAs(ps, decode)[..Fewer(n, |ps|)]);
  }

  /** A file that does not begin with "GGUF" and a version yields nothing, and one that ends before its counts only the version. */
  lemma HeaderCutShort(data: Bytes, decode: Decoding)
    ensures |data| < 8 || data[..4] != [71, 71, 85, 70] ==> ParseHeader(data, decode) == map[]
    ensures 8 <= |data| < 24 && data[..4] == [71, 71, 85, 70] ==>
              ParseHeader(data, decode) == map["_gguf_version" := Int(FromLittleEndian(data[4..8]))]
  {
    hide ParsePairs;
    if |data| >= 4 {
      MagicIs(data[0..4]);
      assert data[0..4] == data[..4];
    }
  }

  lemma MagicIs(raw: Bytes)
    requires |raw| == 4
    ensures FromLittleEndian(raw) == MAGIC <==> raw == [71, 71, 85, 70]
  {
    LittleEndianOf(raw);
  }
}
