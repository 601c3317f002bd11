/**
 * `TrackNamespace`: an ordered tuple of byte-string fields naming a
 * publishing scope.  On the wire it is a field count followed by each field
 * as a length-prefixed byte string; every count and length is a QUIC
 * variable-length integer.  It converts to and from `/`-paths.
 */
module TrackNamespaces {
  import opened Text
  import opened Wrappers
  import VarInt

  /** `TrackNamespace::MAX_FIELDS`. */
  const MaxFields: nat := 32

  /** `TupleField::MAX_VALUE_SIZE`. */
  const MaxValueSize: nat := 4096

  /** A tuple field: its value bytes. */
  type Field = Text

  datatype TrackNamespace = TrackNamespace(fields: seq<Field>)

  datatype TrackNamespaceError = TooManyFields(count: nat, max: nat) | FieldTooLarge(size: nat, max: nat)

  const TuplesWhat: string := "TrackNamespace tuples"

  // ---------------------------------------------------------------------
  // Conversions from field lists and strings
  // ---------------------------------------------------------------------

  /** The index of the first field longer than `MaxValueSize`, if any. */
  function FirstTooLarge(fields: seq<Field>): (r: Option<nat>)
    ensures r.Some? ==> r.value < |fields| && |fields[r.value]| > MaxValueSize
                        && forall j :: 0 <= j < r.value ==> |fields[j]| <= MaxValueSize
    ensures r.None? <==> forall j :: 0 <= j < |fields| ==> |fields[j]| <= MaxValueSize
  {
    if |fields| == 0 then None
    else if |fields[0]| > MaxValueSize then Some(0)
    else match FirstTooLarge(fields[1..])
      case None => None
      case Some(i) => Some(i + 1)
  }

  /**
   * `TryFrom<Vec<TupleField>>` (and, since text is bytes here, also
   * `TryFrom<Vec<&str>>` and `TryFrom<Vec<String>>`): the field count is
   * checked first, then the size of each field in order.
   */
  function TryFromFields(fields: seq<Field>): (r: Result<TrackNamespace, TrackNamespaceError>)
    ensures |fields| > MaxFields ==> r == Failure(TooManyFields(|fields|, MaxFields))
    ensures |fields| <= MaxFields ==>
      (r.Success? <==> forall j :: 0 <= j < |fields| ==> |fields[j]| <= MaxValueSize)
    ensures r.Success? ==> r.value.fields == fields
    ensures |fields| <= MaxFields && r.Failure? ==>
      exists i :: 0 <= i < |fields| && |fields[i]| > MaxValueSize
               && (forall j :: 0 <= j < i ==> |fields[j]| <= MaxValueSize)
               && r.error == FieldTooLarge(|fields[i]|, MaxValueSize)
  {
    if |fields| > MaxFields then Failure(TooManyFields(|fields|, MaxFields))
    else match FirstTooLarge(fields)
      case Some(i) => Failure(FieldTooLarge(|fields[i]|, MaxValueSize))
      case None => Success(TrackNamespace(fields))
  }

  /** `.filter(|s| !s.is_empty())`. */
  function NonEmpty(parts: seq<Text>): (r: seq<Text>)
    ensures forall j :: 0 <= j < |r| ==> r[j] != []
  {
    if |parts| == 0 then []
    else (if parts[0] == [] then [] else [parts[0]]) + NonEmpty(parts[1..])
  }

  lemma {:induction false} NonEmptyKeepsNonEmpty(parts: seq<Text>)
    requires forall j :: 0 <= j < |parts| ==> parts[j] != []
    ensures NonEmpty(parts) == parts
  {
    if |parts| > 0 {
      NonEmptyKeepsNonEmpty(parts[1..]);
    }
  }

  /** Every piece `NonEmpty` keeps is one of its input pieces. */
  lemma {:induction false} NonEmptyKeepsPieces(parts: seq<Text>)
    ensures forall j :: 0 <= j < |NonEmpty(parts)| ==> NonEmpty(parts)[j] in parts
  {
    if |parts| > 0 {
      NonEmptyKeepsPieces(parts[1..]);
      var head: seq<Text> := if parts[0] == [] then [] else [parts[0]];
      assert NonEmpty(parts) == head + NonEmpty(parts[1..]);
      forall j | 0 <= j < |NonEmpty(parts)| ensures NonEmpty(parts)[j] in parts {
        if j >= |head| {
          assert NonEmpty(parts)[j] == NonEmpty(parts[1..])[j - |head|];
          assert NonEmpty(parts[1..])[j - |head|] in parts[1..];
        }
      }
    }
  }

  /**
   * `TryFrom<&str>` (and `TryFrom<String>`): split at `/`, drop the empty
   * pieces, then validate as a field list.  A namespace it builds has
   * non-empty fields free of `/`: the pieces of the path in order.
   */
  function TryFromStr(path: Text): (r: Result<TrackNamespace, TrackNamespaceError>)
    ensures r.Success? <==>
      |NonEmpty(Split(path))| <= MaxFields
      && forall j :: 0 <= j < |NonEmpty(Split(path))| ==> |NonEmpty(Split(path))[j]| <= MaxValueSize
    ensures |NonEmpty(Split(path))| > MaxFields ==> r == Failure(TooManyFields(|NonEmpty(Split(path))|, MaxFields))
    ensures r.Success? ==> r.value.fields == NonEmpty(Split(path))
    ensures r.Success? ==> forall j :: 0 <= j < |r.value.fields| ==>
      r.value.fields[j] != [] && Slash !in r.value.fields[j] && |r.value.fields[j]| <= MaxValueSize
  {
    SplitPiecesFree(path);
    NonEmptyKeepsPieces(Split(path));
    TryFromFields(NonEmpty(Split(path)))
  }

  // ---------------------------------------------------------------------
  // `/`-paths
  // ---------------------------------------------------------------------

  /** What `to_utf8_path` builds: a `/` before every field. */
  function PathOf(fields: seq<Field>): Text
  {
    if |fields| == 0 then []
    else PathOf(fields[..|fields| - 1]) + [Slash] + fields[|fields| - 1]
  }

  /** `to_utf8_path`: pushes `/` and then the field for each field in turn. */
  method ToUtf8Path(ns: TrackNamespace) returns (path: Text)
    ensures path == PathOf(ns.fields)
  {
    path := [];
    for i := 0 to |ns.fields|
      invariant path == PathOf(ns.fields[..i])
    {
      assert ns.fields[..i + 1][..i] == ns.fields[..i];
      path := path + [Slash];
      path := path + ns.fields[i];
    }
    assert ns.fields[..|ns.fields|] == ns.fields;
  }

  /** `from_utf8_path`: every `/`-separated piece becomes a field, empty pieces included. */
  method FromUtf8Path(path: Text) returns (ns: TrackNamespace)
    ensures ns.fields == Split(path)
  {
    var fields: seq<Field> := [];
    var part: Field := [];
    var i := 0;
    while i < |path|
      invariant 0 <= i <= |path|
      invariant fields + [part] == Split(path[..i])
    {
      assert path[..i + 1] == path[..i] + [path[i]];
      SplitSnoc(path[..i], path[i]);
      if path[i] == Slash {
        fields := fields + [part];
        part := [];
      } else {
        part := part + [path[i]];
      }
      i := i + 1;
    }
    assert path[..|path|] == path;
    ns := TrackNamespace(fields + [part]);
  }

  /** Fields that contain no `/`. */
  predicate NoSeparators(fields: seq<Field>)
  {
    forall j :: 0 <= j < |fields| ==> Slash !in fields[j]
  }

  lemma {:induction false} NoSeparatorsPrefix(fields: seq<Field>, init: seq<Field>)
    requires NoSeparators(fields) && |fields| > 0 && init == fields[..|fields| - 1]
    ensures NoSeparators(init)
  {
    forall j | 0 <= j < |init| ensures Slash !in init[j] { assert init[j] == fields[j]; }
  }

  /** Adding a `/`-free field to the path adds it to the pieces. */
  lemma {:induction false} SplitPathOfSnoc(fields: seq<Field>, init: seq<Field>)
    requires NoSeparators(fields) && |fields| > 0 && init == fields[..|fields| - 1]
    requires Split(PathOf(init)) == [[]] + init
    ensures Split(PathOf(fields)) == [[]] + fields
  {
    var last := fields[|fields| - 1];
    SplitConcat(PathOf(init), last);
    SplitNoSeparator(last);
    assert init + [last] == fields;
  }

  /** Splitting a path built by `to_utf8_path` gives an empty piece and then the fields. */
  lemma {:induction false} SplitPathOf(fields: seq<Field>)
    requires NoSeparators(fields)
    ensures Split(PathOf(fields)) == [[]] + fields
  {
    if |fields| > 0 {
      var init := fields[..|fields| - 1];
      NoSeparatorsPrefix(fields, init);
      SplitPathOf(init);
      SplitPathOfSnoc(fields, init);
    }
  }

  /** Printing a namespace `TryFrom<&str>` built and converting the result again gives the same namespace. */
  lemma {:induction false} TryFromStrReparse(path: Text)
    requires TryFromStr(path).Success?
    ensures TryFromStr(PathOf(TryFromStr(path).value.fields)) == TryFromStr(path)
  {
    var ns := TryFromStr(path).value;
    StrOfPathRoundTrip(ns);
  }

  /**
   * The two path conversions are not inverse: `from_utf8_path` of a path made
   * by `to_utf8_path` has an extra empty first field.
   */
  lemma {:induction false} FromPathOfToPath(ns: TrackNamespace)
    requires NoSeparators(ns.fields)
    ensures Split(PathOf(ns.fields)) == [[]] + ns.fields
    ensures |Split(PathOf(ns.fields))| == |ns.fields| + 1
  {
    SplitPathOf(ns.fields);
  }

  /**
   * `TryFrom<&str>` undoes `to_utf8_path` whenever no field is empty or
   * contains `/`: it gives back exactly what validating the fields gives.
   */
  lemma {:induction false} StrOfPathRoundTrip(ns: TrackNamespace)
    requires NoSeparators(ns.fields)
    requires forall j :: 0 <= j < |ns.fields| ==> ns.fields[j] != []
    ensures TryFromStr(PathOf(ns.fields)) == TryFromFields(ns.fields)
    ensures |ns.fields| <= MaxFields && (forall j :: 0 <= j < |ns.fields| ==> |ns.fields[j]| <= MaxValueSize)
            ==> TryFromStr(PathOf(ns.fields)) == Success(ns)
  {
    SplitPathOf(ns.fields);
    var parts: seq<Text> := [[]] + ns.fields;
    assert parts[0] == [] && parts[1..] == ns.fields;
    assert NonEmpty(parts) == NonEmpty(ns.fields);
    NonEmptyKeepsNonEmpty(ns.fields);
  }

  // ---------------------------------------------------------------------
  // Wire encoding
  // ---------------------------------------------------------------------

  /** A tuple field on the wire: its length, then its bytes. */
  function EncodeField(f: Field): (r: Result<Text, VarInt.EncodeError>)
    ensures r.Success? <==> |f| <= VarInt.MaxValue
  {
    var len :- VarInt.Encode(|f|);
    Success(len + f)
  }

  /** The fields one after another; the first field that cannot be encoded stops it. */
  function EncodeFields(fields: seq<Field>): (r: Result<Text, VarInt.EncodeError>)
  {
    if |fields| == 0 then Success([])
    else
      var init :- EncodeFields(fields[..|fields| - 1]);
      var last :- EncodeField(fields[|fields| - 1]);
      Success(init + last)
  }

  /** The namespace on the wire: more than `MaxFields` fields is refused before anything is written. */
  function EncodeSpec(ns: TrackNamespace): Result<Text, VarInt.EncodeError>
  {
    if |ns.fields| > MaxFields then Failure(VarInt.EncodeError.FieldBoundsExceeded(TuplesWhat))
    else
      var body :- EncodeFields(ns.fields);
      Success(VarInt.Encode(|ns.fields|).value + body)
  }

  lemma {:induction false} EncodeFieldsSuccess(fields: seq<Field>)
    ensures EncodeFields(fields).Success? <==> forall j :: 0 <= j < |fields| ==> |fields[j]| <= VarInt.MaxValue
  {
    if |fields| > 0 {
      var init := fields[..|fields| - 1];
      EncodeFieldsSuccess(init);
      assert forall j :: 0 <= j < |init| ==> init[j] == fields[j];
    }
  }

  /** Encoding succeeds exactly for namespaces within the field cap whose field lengths are encodable. */
  lemma {:induction false} EncodeSucceeds(ns: TrackNamespace)
    ensures EncodeSpec(ns).Success? <==>
      |ns.fields| <= MaxFields && forall j :: 0 <= j < |ns.fields| ==> |ns.fields[j]| <= VarInt.MaxValue
  {
    EncodeFieldsSuccess(ns.fields);
  }

  /** Failure of a prefix of the fields is the failure of the whole list. */
  lemma {:induction false} EncodeFieldsPrefixFailure(fields: seq<Field>, i: nat)
    requires i <= |fields|
    requires EncodeFields(fields[..i]).Failure?
    ensures EncodeFields(fields) == EncodeFields(fields[..i])
    decreases |fields| - i
  {
    if i < |fields| {
      var n := |fields|;
      assert fields[..n][..n - 1] == fields[..n - 1];
      if i < n - 1 {
        assert fields[..n - 1][..i] == fields[..i];
        EncodeFieldsPrefixFailure(fields[..n - 1], i);
      }
    } else {
      assert fields[..i] == fields;
    }
  }

  /** `fields` encode, one after another, to `e`. */
  predicate EncodesTo(fields: seq<Field>, e: Text)
  {
    WriteFields(fields) == Success(e)
  }

  /**
   * `EncodeFields` under a non-recursive name: a contract that mentions it
   * lets the verifier unfold the recursion one level rather than two.
   */
  function WriteFields(fields: seq<Field>): Result<Text, VarInt.EncodeError>
  {
    EncodeFields(fields)
  }

  /** Encoding one more field after the first `i`, which encode to `e`. */
  lemma {:induction false} EncodeFieldsStep(fields: seq<Field>, i: nat, e: Text)
    requires i < |fields| && EncodesTo(fields[..i], e)
    ensures EncodeField(fields[i]).Failure? ==> EncodeFields(fields[..i + 1]) == Failure(EncodeField(fields[i]).error)
    ensures EncodeField(fields[i]).Success? ==> EncodesTo(fields[..i + 1], e + EncodeField(fields[i]).value)
  {
    assert fields[..i + 1][..i] == fields[..i];
  }

  /** `encode`: the count, then each field in turn. */
  method Encode(ns: TrackNamespace) returns (r: Result<Text, VarInt.EncodeError>)
    ensures r == EncodeSpec(ns)
  {
    if |ns.fields| > MaxFields {
      return Failure(VarInt.EncodeError.FieldBoundsExceeded(TuplesWhat));
    }
    var count := VarInt.Encode(|ns.fields|);
    var w := count.value;
    ghost var body: Text := [];
    assert ns.fields[..0] == [];
    for i := 0 to |ns.fields|
      invariant EncodesTo(ns.fields[..i], body)
      invariant w == count.value + body
    {
      var field := EncodeField(ns.fields[i]);
      EncodeFieldsStep(ns.fields, i, body);
      if field.Failure? {
        EncodeFieldsPrefixFailure(ns.fields, i + 1);
        return Failure(field.error);
      }
      w := w + field.value;
      body := body + field.value;
    }
    assert ns.fields[..|ns.fields|] == ns.fields;
    return Success(w);
  }

  // ---------------------------------------------------------------------
  // Wire decoding
  // ---------------------------------------------------------------------

  /** A tuple field from the front of `buf`, with the number of bytes it takes. */
  function DecodeField(buf: Text): (r: Result<(Field, nat), VarInt.DecodeError>)
    ensures r.Success? ==> r.value.1 <= |buf|
  {
    var (len, m) :- VarInt.Decode(buf);
    if |buf| - m < len then Failure(VarInt.More(len - (|buf| - m)))
    else Success((buf[m..m + len], m + len))
  }

  /** `k` fields read one after another from offset `start`, with the offset reached. */
  function DecodeFields(buf: Text, start: nat, k: nat): (r: Result<(seq<Field>, nat), VarInt.DecodeError>)
    requires start <= |buf|
    ensures r.Success? ==> |r.value.0| == k && start <= r.value.1 <= |buf|
  {
    if k == 0 then Success(([], start))
    else
      var (fields, pos) :- DecodeFields(buf, start, k - 1);
      var (f, used) :- DecodeField(buf[pos..]);
      Success((fields + [f], pos + used))
  }

  /**
   * The namespace from the front of `buf`, with the number of bytes it takes.
   * A count above `MaxFields` is refused before any field is read.
   */
  function DecodeSpec(buf: Text): (r: Result<(TrackNamespace, nat), VarInt.DecodeError>)
    ensures r.Success? ==> |r.value.0.fields| <= MaxFields && r.value.1 <= |buf|
  {
    var (count, n) :- VarInt.Decode(buf);
    if count > MaxFields then Failure(VarInt.DecodeError.FieldBoundsExceeded(TuplesWhat))
    else
      var (fields, end) :- DecodeFields(buf, n, count);
      Success((TrackNamespace(fields), end))
  }

  /** Once the count is read and accepted, decoding is reading that many fields after it. */
  lemma {:induction false} DecodeSpecFields(buf: Text, count: nat, n: nat)
    requires VarInt.Decode(buf) == Success((count, n)) && count <= MaxFields
    ensures DecodeFields(buf, n, count).Failure? ==>
      DecodeSpec(buf) == Failure(DecodeFields(buf, n, count).error)
    ensures DecodeFields(buf, n, count).Success? ==>
      DecodeSpec(buf) == Success((TrackNamespace(DecodeFields(buf, n, count).value.0), DecodeFields(buf, n, count).value.1))
  {
  }

  /** `decode`: reads the count, checks it, then reads that many fields. */
  method Decode(buf: Text) returns (r: Result<(TrackNamespace, nat), VarInt.DecodeError>)
    ensures r == DecodeSpec(buf)
  {
    var c := VarInt.Decode(buf);
    if c.Failure? {
      return Failure(c.error);
    }
    var (count, n) := c.value;
    if count > MaxFields {
      return Failure(VarInt.DecodeError.FieldBoundsExceeded(TuplesWhat));
    }
    DecodeSpecFields(buf, count, n);
    var fields: seq<Field> := [];
    var pos: nat := n;
    for i := 0 to count
      invariant pos <= |buf| && |fields| == i
      invariant ReadsBack(buf, n, fields, pos)
    {
      var f := DecodeField(buf[pos..]);
      DecodeFieldsStep(buf, n, fields, pos);
      if f.Failure? {
        DecodeFieldsPrefixFailure(buf, n, i + 1, count);
        return Failure(f.error);
      }
      fields := fields + [f.value.0];
      pos := pos + f.value.1;
    }
    return Success((TrackNamespace(fields), pos));
  }

  /** Reading `|fields|` fields from offset `start` gives back `fields` and stops at `end`. */
  predicate ReadsBack(buf: Text, start: nat, fields: seq<Field>, end: nat)
    requires start <= |buf|
  {
    ReadFields(buf, start, |fields|) == Success((fields, end))
  }

  /**
   * `DecodeFields` under a non-recursive name: a contract that mentions it
   * lets the verifier unfold the recursion one level rather than two.
   */
  function ReadFields(buf: Text, start: nat, k: nat): Result<(seq<Field>, nat), VarInt.DecodeError>
    requires start <= |buf|
  {
    DecodeFields(buf, start, k)
  }

  /** Reading one more field after `fields`, read up to `pos`. */
  lemma {:induction false} DecodeFieldsStep(buf: Text, start: nat, fields: seq<Field>, pos: nat)
    requires start <= |buf| && pos <= |buf|
    requires ReadsBack(buf, start, fields, pos)
    ensures DecodeField(buf[pos..]).Failure? ==>
      DecodeFields(buf, start, |fields| + 1) == Failure(DecodeField(buf[pos..]).error)
    ensures DecodeField(buf[pos..]).Success? ==>
      ReadsBack(buf, start, fields + [DecodeField(buf[pos..]).value.0], pos + DecodeField(buf[pos..]).value.1)
  {
  }

  /** Once reading the first `i` fields fails, reading more fails the same way. */
  lemma {:induction false} DecodeFieldsPrefixFailure(buf: Text, start: nat, i: nat, k: nat)
    requires start <= |buf| && i <= k
    requires DecodeFields(buf, start, i).Failure?
    ensures DecodeFields(buf, start, k) == DecodeFields(buf, start, i)
    decreases k - i
  {
    if i < k {
      DecodeFieldsPrefixFailure(buf, start, i, k - 1);
    }
  }

  // ---------------------------------------------------------------------
  // Round trip
  // ---------------------------------------------------------------------

  lemma {:induction false} FieldRoundTrip(f: Field, rest: Text)
    requires |f| <= VarInt.MaxValue
    ensures DecodeField(EncodeField(f).value + rest) == Success((f, |EncodeField(f).value|))
  {
    var len := VarInt.Encode(|f|).value;
    VarInt.RoundTrip(|f|, f + rest);
    var buf := EncodeField(f).value + rest;
    assert buf == len + (f + rest);
    assert buf[|len|..|len| + |f|] == f;
  }

  /** A list is its front followed by its last element. */
  lemma {:induction false} SnocSplit<T>(s: seq<T>)
    requires |s| > 0
    ensures s[..|s| - 1] + [s[|s| - 1]] == s
  {
  }

  /** Encoding one more field appends its encoding. */
  lemma {:induction false} EncodeFieldsUnfold(fields: seq<Field>)
    requires |fields| > 0 && EncodeFields(fields).Success?
    ensures EncodeFields(fields[..|fields| - 1]).Success? && EncodeField(fields[|fields| - 1]).Success?
    ensures EncodeFields(fields).value
         == EncodeFields(fields[..|fields| - 1]).value + EncodeField(fields[|fields| - 1]).value
  {
  }

  /** Where `buf` holds `a + b` from `start`, it holds `b` from `start + |a|`. */
  lemma {:induction false} DropMore(buf: Text, start: nat, a: Text, b: Text)
    requires start <= |buf| && buf[start..] == a + b
    ensures start + |a| <= |buf| && buf[start + |a|..] == b
  {
    assert buf[start + |a|..] == buf[start..][|a|..];
  }

  /** Where `buf` holds `(a + b) + c` from `start`, it holds `a + (b + c)`. */
  lemma {:induction false} Regroup(buf: Text, start: nat, a: Text, b: Text, c: Text)
    requires start <= |buf| && buf[start..] == (a + b) + c
    ensures buf[start..] == a + (b + c)
  {
  }

  /**
   * After fields read up to `pos`, where `buf` holds the encoding `e` of `f`
   * from `pos`, one more read gives `all`, the fields followed by `f`, and
   * stops at `end`, right after `e`.
   */
  lemma {:induction false} DecodeFieldsSnoc(buf: Text, start: nat, fields: seq<Field>, pos: nat, f: Field, e: Text, rest: Text,
                         all: seq<Field>, end: nat)
    requires start <= pos <= |buf| && EncodeField(f) == Success(e)
    requires buf[pos..] == e + rest
    requires ReadsBack(buf, start, fields, pos)
    requires all == fields + [f] && end == pos + |e|
    ensures ReadsBack(buf, start, all, end)
  {
    FieldRoundTrip(f, rest);
    DecodeFieldsStep(buf, start, fields, pos);
  }

  /** No fields encode to nothing and are read from nothing. */
  lemma {:induction false} NoFields(buf: Text, start: nat, fields: seq<Field>, e: Text)
    requires |fields| == 0 && start <= |buf| && EncodesTo(fields, e)
    ensures e == [] && ReadsBack(buf, start, fields, start + |e|)
  {
  }

  /**
   * Where `buf` holds the encoding `e` of `fields` from `start`, it holds the
   * encoding `ei` of `init`, all but the last field, followed by the encoding
   * `el` of the last field.
   */
  lemma {:induction false} FieldsSuffix(buf: Text, start: nat, fields: seq<Field>, init: seq<Field>, e: Text, rest: Text)
    returns (ei: Text, el: Text)
    requires |fields| > 0 && init == fields[..|fields| - 1] && EncodesTo(fields, e)
    requires start <= |buf| && buf[start..] == e + rest
    ensures EncodesTo(init, ei) && EncodeField(fields[|fields| - 1]) == Success(el) && e == ei + el
    ensures buf[start..] == ei + (el + rest)
    ensures start + |ei| <= |buf| && buf[start + |ei|..] == el + rest
    ensures fields == init + [fields[|fields| - 1]]
  {
    EncodeFieldsUnfold(fields);
    ei, el := EncodeFields(init).value, EncodeField(fields[|fields| - 1]).value;
    Regroup(buf, start, ei, el, rest);
    DropMore(buf, start, ei, el + rest);
    SnocSplit(fields);
  }

  /** Reading fields from where `buf` holds their encoding `e`, followed by anything, gives them back and stops right after `e`. */
  lemma {:induction false} FieldsRoundTrip(buf: Text, start: nat, fields: seq<Field>, e: Text, rest: Text)
    requires EncodesTo(fields, e)
    requires start <= |buf| && buf[start..] == e + rest
    ensures ReadsBack(buf, start, fields, start + |e|)
  {
    if |fields| > 0 {
      var init := fields[..|fields| - 1];
      var ei, el := FieldsSuffix(buf, start, fields, init, e, rest);
      FieldsRoundTrip(buf, start, init, ei, el + rest);
      DecodeFieldsSnoc(buf, start, init, start + |ei|, fields[|fields| - 1], el, rest, fields, start + |e|);
    } else {
      NoFields(buf, start, fields, e);
    }
  }

  /**
   * Decoding the encoding of a namespace, followed by anything, gives back
   * the namespace and consumes exactly its encoding.
   */
  lemma {:induction false} RoundTrip(ns: TrackNamespace, rest: Text)
    requires EncodeSpec(ns).Success?
    ensures DecodeSpec(EncodeSpec(ns).value + rest) == Success((ns, |EncodeSpec(ns).value|))
  {
    var count := VarInt.Encode(|ns.fields|).value;
    var body := EncodeFields(ns.fields).value;
    assert EncodeSpec(ns).value + rest == count + (body + rest);
    CountThenFields(count, ns.fields, body, rest);
  }

  /** The encoded count followed by the encoded fields, then anything, decodes to those fields. */
  lemma {:induction false} CountThenFields(count: Text, fields: seq<Field>, body: Text, rest: Text)
    requires |fields| <= MaxFields && VarInt.Encode(|fields|) == Success(count) && EncodesTo(fields, body)
    ensures DecodeSpec(count + (body + rest)) == Success((TrackNamespace(fields), |count| + |body|))
  {
    var buf := count + (body + rest);
    VarInt.RoundTrip(|fields|, body + rest);
    DropMore(buf, 0, count, body + rest);
    FieldsRoundTrip(buf, |count|, fields, body, rest);
    DecodeSpecFields(buf, |fields|, |count|);
  }

  // ---------------------------------------------------------------------
  // Worked examples
  // ---------------------------------------------------------------------

  /** The ASCII fields `test`, `path`, `to`, `resource` and `a`. */
  const FieldTest: Field := [0x74, 0x65, 0x73, 0x74]
  const FieldPath: Field := [0x70, 0x61, 0x74, 0x68]
  const FieldTo: Field := [0x74, 0x6f]
  const FieldResource: Field := [0x72, 0x65, 0x73, 0x6f, 0x75, 0x72, 0x63, 0x65]
  const FieldA: Field := [0x61]

  const ExampleFields: seq<Field> := [FieldTest, FieldPath, FieldTo, FieldResource]

  /** The path `test/path/to/resource`. */
  const ExamplePath: Text := FieldTest + [Slash] + FieldPath + [Slash] + FieldTo + [Slash] + FieldResource

  /** Four `/`-free pieces joined by `/` split back into those four pieces. */
  lemma {:induction false} SplitFour(a: Field, b: Field, c: Field, d: Field)
    requires Slash !in a && Slash !in b && Slash !in c && Slash !in d
    ensures Split(a + [Slash] + b + [Slash] + c + [Slash] + d) == [a, b, c, d]
  {
    SplitConcat(a + [Slash] + b + [Slash] + c, d);
    SplitConcat(a + [Slash] + b, c);
    SplitConcat(a, b);
    SplitNoSeparator(a);
    SplitNoSeparator(b);
    SplitNoSeparator(c);
    SplitNoSeparator(d);
  }

  lemma ExamplePathSplits()
    ensures Split(ExamplePath) == ExampleFields
  {
    SplitFour(FieldTest, FieldPath, FieldTo, FieldResource);
  }

  /** Encoding one more field appends its encoding. */
  lemma {:induction false} EncodeFieldsSnoc(fields: seq<Field>, f: Field, e: Text, x: Text)
    requires EncodesTo(fields, e) && EncodeField(f) == Success(x)
    ensures EncodesTo(fields + [f], e + x)
  {
    assert (fields + [f])[..|fields|] == fields;
  }

  lemma {:induction false} SmallFieldEncoding(f: Field)
    requires |f| < 64
    ensures EncodeField(f) == Success([|f| as byte] + f)
  {
    VarInt.SingleByte(|f|);
  }

  /** The first two example fields encode to their lengths and bytes, one after the other. */
  lemma ExampleFirstFieldsEncoding()
    ensures EncodesTo([FieldTest, FieldPath], [0x04] + FieldTest + [0x04] + FieldPath)
  {
    SmallFieldEncoding(FieldTest);
    SmallFieldEncoding(FieldPath);
    assert EncodesTo([], []);
    EncodeFieldsSnoc([], FieldTest, [], [0x04] + FieldTest);
    assert [] + [FieldTest] == [FieldTest] && [] + ([0x04] + FieldTest) == [0x04] + FieldTest;
    EncodeFieldsSnoc([FieldTest], FieldPath, [0x04] + FieldTest, [0x04] + FieldPath);
    assert [FieldTest] + [FieldPath] == [FieldTest, FieldPath];
    assert ([0x04] + FieldTest) + ([0x04] + FieldPath) == [0x04] + FieldTest + [0x04] + FieldPath;
  }

  /** All four example fields encode to their lengths and bytes, one after the other. */
  lemma ExampleFieldsEncoding()
    ensures EncodesTo(ExampleFields, [0x04] + FieldTest + [0x04] + FieldPath + [0x02] + FieldTo + [0x08] + FieldResource)
  {
    var e2 := [0x04] + FieldTest + [0x04] + FieldPath;
    ExampleFirstFieldsEncoding();
    SmallFieldEncoding(FieldTo);
    SmallFieldEncoding(FieldResource);
    EncodeFieldsSnoc([FieldTest, FieldPath], FieldTo, e2, [0x02] + FieldTo);
    assert [FieldTest, FieldPath] + [FieldTo] == [FieldTest, FieldPath, FieldTo];
    EncodeFieldsSnoc([FieldTest, FieldPath, FieldTo], FieldResource, e2 + ([0x02] + FieldTo), [0x08] + FieldResource);
    assert [FieldTest, FieldPath, FieldTo] + [FieldResource] == ExampleFields;
    assert e2 + ([0x02] + FieldTo) + ([0x08] + FieldResource)
        == [0x04] + FieldTest + [0x04] + FieldPath + [0x02] + FieldTo + [0x08] + FieldResource;
  }

  /**
   * The four fields of `from_utf8_path("test/path/to/resource")` (see
   * `ExamplePathSplits`) encode to the count 4 followed by four
   * length-prefixed fields.
   */
  lemma ExampleEncoding()
    ensures EncodeSpec(TrackNamespace(ExampleFields)) == Success(
      [0x04] + [0x04] + FieldTest + [0x04] + FieldPath + [0x02] + FieldTo + [0x08] + FieldResource)
  {
    VarInt.SingleByte(4);
    ExampleFieldsEncoding();
    var body := [0x04] + FieldTest + [0x04] + FieldPath + [0x02] + FieldTo + [0x08] + FieldResource;
    assert [0x04] + body
        == [0x04] + [0x04] + FieldTest + [0x04] + FieldPath + [0x02] + FieldTo + [0x08] + FieldResource;
  }

  /** `from_utf8_path` keeps a leading empty piece: `/a` gives two fields. */
  lemma LeadingSlashKeepsEmptyField()
    ensures Split([Slash] + FieldA) == [[], FieldA]
  {
    assert [Slash] + FieldA == [] + [Slash] + FieldA;
    SplitConcat([], FieldA);
    SplitNoSeparator(FieldA);
  }

  /** Converting the example path gives four fields, and printing them adds a leading `/`. */
  lemma ExampleTryFromStr()
    ensures TryFromStr(ExamplePath) == Success(TrackNamespace(ExampleFields))
    ensures PathOf(ExampleFields) == [Slash] + ExamplePath
  {
    ExamplePathSplits();
    NonEmptyKeepsNonEmpty(ExampleFields);
    ExamplePathOf();
  }

  /** Printing the example fields gives the example path with a leading `/`. */
  lemma ExamplePathOf()
    ensures PathOf(ExampleFields) == [Slash] + ExamplePath
  {
    var fs := ExampleFields;
    assert fs[..1][..0] == [];
    assert PathOf(fs[..1]) == [Slash] + FieldTest;
    assert fs[..2][..1] == fs[..1];
    assert PathOf(fs[..2]) == [Slash] + FieldTest + [Slash] + FieldPath;
    assert fs[..3][..2] == fs[..2];
    assert PathOf(fs[..3]) == [Slash] + FieldTest + [Slash] + FieldPath + [Slash] + FieldTo;
    assert fs[..4][..3] == fs[..3] && fs[..4] == fs;
  }

  /** Any namespace with more than 32 fields is refused by `encode`. */
  lemma {:induction false} TooManyFieldsRefused(ns: TrackNamespace)
    requires |ns.fields| == MaxFields + 1
    ensures EncodeSpec(ns) == Failure(VarInt.EncodeError.FieldBoundsExceeded(TuplesWhat))
    ensures TryFromFields(ns.fields) == Failure(TooManyFields(33, 32))
  {
  }

  /** A single 4097-byte field is refused by the field-list conversion. */
  lemma {:induction false} FieldTooLargeRefused(f: Field)
    requires |f| == MaxValueSize + 1
    ensures TryFromFields([f]) == Failure(FieldTooLarge(4097, 4096))
  {
  }

  /** A count byte of 33 is refused whatever follows it. */
  lemma {:induction false} DecodeCountTooLarge(rest: Text)
    ensures DecodeSpec([33] + rest) == Failure(VarInt.DecodeError.FieldBoundsExceeded(TuplesWhat))
  {
    assert VarInt.Decode([33] + rest) == Success((33, 1)) by {
      VarInt.SingleByte(33);
      VarInt.RoundTrip(33, rest);
    }
  }
}
