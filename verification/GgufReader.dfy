/** Reading GGUF metadata with a cursor that moves through the file. */
module GgufReader {
  import opened Options
  import opened Bytes
  import opened Gguf

  /** What is left to parse of an array, put behind the items read so far. */
  function Behind(read: seq<Option<Value>>, rest: Parsed<seq<Option<Value>>>): Parsed<seq<Option<Value>>> {
    match rest
    case Err(e) => Err(e)
    case Ok((items, end)) => Ok((read + items, end))
  }

  lemma BehindStep(data: Bytes, pos: nat, code: nat, n: nat, decode: Decoding, read: seq<Option<Value>>)
    requires pos <= |data| && n > 0
    ensures match ParseValue(data, pos, code, decode)
            case Err(e) => Behind(read, ParseItems(data, pos, code, n, decode)) == Err(e)
            case Ok((v, next)) =>
              Behind(read, ParseItems(data, pos, code, n, decode))
              == Behind(read + [v], ParseItems(data, next, code, n - 1, decode))
  {
    hide ParseValue;
    var value := ParseValue(data, pos, code, decode);
    if value.Ok? {
      var rest := ParseItems(data, value.value.1, code, n - 1, decode);
      if rest.Ok? {
        assert read + ([value.value.0] + rest.value.0) == (read + [value.value.0]) + rest.value.0;
      }
    }
  }

  lemma BehindNone(data: Bytes, pos: nat, code: nat, decode: Decoding, read: seq<Option<Value>>)
    requires pos <= |data|
    ensures Behind(read, ParseItems(data, pos, code, 0, decode)) == Ok((read, pos))
    ensures read == [] ==> forall n: nat :: Behind(read, ParseItems(data, pos, code, n, decode)) == ParseItems(data, pos, code, n, decode)
  {
    assert read + [] == read;
    forall n: nat | read == [] ensures Behind(read, ParseItems(data, pos, code, n, decode)) == ParseItems(data, pos, code, n, decode) {
      var items := ParseItems(data, pos, code, n, decode);
      if items.Ok? {
        assert [] + items.value.0 == items.value.0;
      }
    }
  }

  class Reader {
    const data: Bytes
    var pos: nat

    constructor (data: Bytes)
      ensures Valid() && this.data == data && pos == 0
    {
      this.data, pos := data, 0;
    }

    ghost predicate Valid()
      reads this
    {
      pos <= |data|
    }

    /** Reads `n` bytes, or what is left of the file. */
    method Read(n: nat) returns (chunk: Bytes)
      requires Valid()
      modifies this
      ensures Valid() && old(pos) <= pos && chunk == data[old(pos)..pos]
      ensures pos == if old(pos) + n <= |data| then old(pos) + n else |data|
    {
      var end := if pos + n <= |data| then pos + n else |data|;
      chunk := data[pos..end];
      pos := end;
    }

    method ReadNat(width: nat) returns (r: Result<nat, ReadError>)
      requires Valid()
      modifies this
      ensures Valid() && pos >= old(pos)
      ensures match ParseNat(data, old(pos), width)
              case Err(e) => r == Err(e)
              case Ok((n, end)) => r == Ok(n) && pos == end
    {
      var chunk := Read(width);
      if |chunk| < width {
        return Err(Truncated);
      }
      r := Ok(FromLittleEndian(chunk));
    }

    method ReadString(decode: Decoding) returns (r: Result<string, ReadError>)
      requires Valid()
      modifies this
      ensures Valid() && pos >= old(pos)
      ensures match ParseString(data, old(pos), decode)
              case Err(e) => r == Err(e)
              case Ok((text, end)) => r == Ok(text) && pos == end
    {
      hide ParseNat, FromLittleEndian;
      var length := ReadNat(8);
      if length.Err? {
        return Err(length.error);
      }
      if length.value > MAX_STRING {
        return Err(StringTooLong);
      }
      var chunk := Read(length.value);
      r := Ok(decode(chunk));
    }

    /** Reads one value and leaves the cursor at its end; arrays are read element by element. */
    method ReadValue(code: nat, decode: Decoding) returns (r: Result<Option<Value>, ReadError>)
      requires Valid()
      modifies this
      ensures Valid() && pos >= old(pos)
      ensures match ParseValue(data, old(pos), code, decode)
              case Err(e) => r == Err(e)
              case Ok((v, end)) => r == Ok(v) && pos == end
      decreases |data| - pos
    {
      hide ParseNat, ParseString, ParseItems, FromLittleEndian, Interpret, Behind;
      var scalar := ScalarOf(code);
      if scalar.Some? {
        var (kind, width) := scalar.value;
        var raw := Read(width);
        if |raw| < width {
          return Err(Truncated);
        }
        return Ok(Some(Interpret(kind, raw)));
      }
      if code == STRING_CODE {
        var text := ReadString(decode);
        if text.Err? {
          return Err(text.error);
        }
        return Ok(Some(Text(text.value)));
      }
      if code != ARRAY_CODE {
        return Ok(None);
      }
      var element := ReadNat(4);
      if element.Err? {
        return Err(element.error);
      }
      var length := ReadNat(8);
      if length.Err? {
        return Err(length.error);
      }
      ghost var whole := ParseItems(data, pos, element.value, length.value, decode);
      var shown := if length.value < SHOWN_ITEMS then length.value else SHOWN_ITEMS;
      var items: seq<Option<Value>> := [];
      BehindNone(data, pos, element.value, decode, items);
      for i := 0 to shown
        invariant old(pos) + 12 <= pos <= |data| && |items| == i
        invariant Behind(items, ParseItems(data, pos, element.value, length.value - i, decode)) == whole
      {
        BehindStep(data, pos, element.value, length.value - i, decode, items);
        var item := ReadValue(element.value, decode);
        if item.Err? {
          return Err(item.error);
        }
        items := items + [item.value];
      }
      ghost var all := items;
      for i := shown to length.value
        invariant old(pos) + 12 <= pos <= |data| && |all| == i && (i == shown ==> all == items)
        invariant Behind(all, ParseItems(data, pos, element.value, length.value - i, decode)) == whole
      {
        BehindStep(data, pos, element.value, length.value - i, decode, all);
        var item := ReadValue(element.value, decode);
        if item.Err? {
          return Err(item.error);
        }
        all := all + [item.value];
      }
      BehindNone(data, pos, element.value, decode, all);
      r := Ok(Some(if length.value <= SHOWN_ITEMS then Items(items) else Summary(length.value)));
    }

    /** Reads pairs until the count or the first malformed one. */
    method ReadPairs(n: nat, start: Metadata, decode: Decoding) returns (metadata: Metadata)
      requires Valid()
      modifies this
      ensures metadata == ParsePairs(data, old(pos), n, start, decode)
    {
      hide ParseNat, ParseString, ParseValue;
      metadata := start;
      for i := 0 to n
        invariant Valid() && ParsePairs(data, pos, n - i, metadata, decode) == ParsePairs(data, old(pos), n, start, decode)
      {
        var key := ReadString(decode);
        if key.Err? {
          return;
        }
        var code := ReadNat(4);
        if code.Err? {
          return;
        }
        var value := ReadValue(code.value, decode);
        if value.Err? {
          return;
        }
        if key.value != "" && value.value.Some? {
          metadata := metadata[key.value := value.value.value];
        }
      }
    }

    /** Reads the whole header; what was read before a malformed part is kept. */
    method ReadMetadata(decode: Decoding) returns (metadata: Metadata)
      requires Valid() && pos == 0
      modifies this
      ensures metadata == ParseHeader(data, decode)
    {
      hide ParseNat, ParsePairs;
      metadata := map[];
      var magic := ReadNat(4);
      if magic.Err? || magic.value != MAGIC {
        return;
      }
      var version := ReadNat(4);
      if version.Err? {
        return;
      }
      metadata := metadata["_gguf_version" := Int(version.value)];
      var tensors := ReadNat(8);
      if tensors.Err? {
        return;
      }
      var pairs := ReadNat(8);
      if pairs.Err? {
        return;
      }
      metadata := metadata["_tensor_count" := Int(tensors.value)];
      metadata := ReadPairs(if pairs.value < MAX_PAIRS then pairs.value else MAX_PAIRS, metadata, decode);
    }
  }
}
