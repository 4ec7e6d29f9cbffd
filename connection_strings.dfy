/**
 * `ConnectionInfo.CreateFromString` from the test support code: the parser of the
 * credentials string "AccessKeyId=...; SecretAccessKey=...; RegionEndpoint=...".
 * Its console logging is not modelled.
 */
module ConnectionStrings {
  import opened Wrappers

  /** The three settings the parser extracts. */
  datatype ConnectionInfo = ConnectionInfo(accessKeyId: string, secretAccessKey: string, regionEndpoint: string)

  /** The exceptions the parser lets escape (it rethrows after logging). */
  datatype ParseError =
    | MissingValue(piece: string)   // `kv.Split('=')[1]` indexes past the end: the piece has no '='
    | DuplicateKey(key: string)     // `ToDictionary` meets a key for the second time (ordinal comparison)
    | MissingKey(key: string)       // the dictionary indexer does not find a required key

  const PairSeparators: set<char> := {';', ' '}
  const KeyValueSeparator: char := '='
  const AccessKeyIdKey: string := "AccessKeyId"
  const SecretAccessKeyKey: string := "SecretAccessKey"
  const RegionEndpointKey: string := "RegionEndpoint"

  /** `String.Split` without options: the parts between separators, empty parts kept. */
  function Split(s: string, separators: set<char>): (parts: seq<string>)
    ensures |parts| >= 1
    decreases |s|
  {
    if s == [] then [""]
    else
      var rest := Split(s[1..], separators);
      if s[0] in separators then [""] + rest
      else [[s[0]] + rest[0]] + rest[1..]
  }

  /** `StringSplitOptions.RemoveEmptyEntries`: the parts that are not empty, in order. */
  function RemoveEmpty(parts: seq<string>): (r: seq<string>)
    ensures forall p :: p in r ==> p in parts && p != ""
    decreases |parts|
  {
    if parts == [] then []
    else (if parts[0] == "" then [] else [parts[0]]) + RemoveEmpty(parts[1..])
  }

  /** The key=value pieces of a connection string: split on ';' and ' ', empty pieces dropped. */
  function Pieces(text: string): seq<string> {
    RemoveEmpty(Split(text, PairSeparators))
  }

  /** The characters of `s` that are not separators, in order. */
  function Without(s: string, separators: set<char>): string
    decreases |s|
  {
    if s == [] then [] else (if s[0] in separators then [] else [s[0]]) + Without(s[1..], separators)
  }

  /** The concatenation of a sequence of strings. */
  function Concat(parts: seq<string>): string
    decreases |parts|
  {
    if parts == [] then [] else parts[0] + Concat(parts[1..])
  }

  /** The key of a piece: the first element of `kv.Split('=')`, the text before the first '='. */
  function Key(piece: string): string {
    Split(piece, {KeyValueSeparator})[0]
  }

  /** Whether `kv.Split('=')[1]` exists, i.e. the piece contains an '='. */
  predicate HasValue(piece: string) {
    |Split(piece, {KeyValueSeparator})| >= 2
  }

  /** The value of a piece: the second element of `kv.Split('=')`. */
  function Value(piece: string): string
    requires HasValue(piece)
  {
    Split(piece, {KeyValueSeparator})[1]
  }

  /**
   * `keyValuePairs.ToDictionary(kv => kv.Split('=')[0], kv => kv.Split('=')[1])`: the pieces
   * are added in order; for each, the key is taken, then the value (which fails without an
   * '='), then the entry is added (which fails for a key already present).
   */
  function ToDictionary(pieces: seq<string>): Result<map<string, string>, ParseError>
    decreases |pieces|
  {
    if pieces == [] then Success(map[])
    else
      match ToDictionary(pieces[..|pieces| - 1])
      case Failure(e) => Failure(e)
      case Success(d) =>
        var piece := pieces[|pieces| - 1];
        if !HasValue(piece) then Failure(MissingValue(piece))
        else if Key(piece) in d then Failure(DuplicateKey(Key(piece)))
        else Success(d[Key(piece) := Value(piece)])
  }

  /** Looks up a required key, as the indexer `keysAndValues[key]` does. */
  function Lookup(d: map<string, string>, key: string): Result<string, ParseError> {
    if key in d then Success(d[key]) else Failure(MissingKey(key))
  }

  /** `ConnectionInfo.CreateFromString`. */
  function CreateFromString(text: string): Result<ConnectionInfo, ParseError> {
    var d :- ToDictionary(Pieces(text));
    var accessKeyId :- Lookup(d, AccessKeyIdKey);
    var secretAccessKey :- Lookup(d, SecretAccessKeyKey);
    var regionEndpoint :- Lookup(d, RegionEndpointKey);
    Success(ConnectionInfo(accessKeyId, secretAccessKey, regionEndpoint))
  }

  // ---------------------------------------------------------------------------------------
  // Splitting

  /** No part of a split contains a separator. */
  lemma {:induction false} SplitPartsHaveNoSeparator(s: string, separators: set<char>)
    ensures forall i, c :: 0 <= i < |Split(s, separators)| && c in Split(s, separators)[i] ==> c !in separators
    decreases |s|
  {
    if s != [] {
      SplitPartsHaveNoSeparator(s[1..], separators);
    }
  }

  /** The parts of a split, put back together, are the input without its separators. */
  lemma {:induction false} SplitConcat(s: string, separators: set<char>)
    ensures Concat(Split(s, separators)) == Without(s, separators)
    decreases |s|
  {
    if s != [] {
      var rest := Split(s[1..], separators);
      SplitConcat(s[1..], separators);
      if s[0] !in separators {
        assert Concat(rest) == rest[0] + Concat(rest[1..]);
        assert [[s[0]] + rest[0]] + rest[1..] == [[s[0]] + rest[0]] + rest[1..];
        assert Concat([[s[0]] + rest[0]] + rest[1..]) == [s[0]] + rest[0] + Concat(rest[1..]) by {
          assert ([[s[0]] + rest[0]] + rest[1..])[1..] == rest[1..];
        }
      } else {
        assert ([""] + rest)[1..] == rest;
      }
    }
  }

  /** A string without separators is split into itself alone. */
  lemma {:induction false} SplitWithoutSeparator(s: string, separators: set<char>)
    requires forall c :: c in s ==> c !in separators
    ensures Split(s, separators) == [s]
    decreases |s|
  {
    if s != [] {
      assert s[0] in s;
      forall c | c in s[1..] ensures c !in separators {
        assert c in s;
      }
      SplitWithoutSeparator(s[1..], separators);
      assert [s[0]] + s[1..] == s;
    }
  }

  /** A split at the first separator: the text before it, then the split of the text after it. */
  lemma {:induction false} SplitAtFirst(s: string, separators: set<char>, i: nat)
    requires i < |s| && s[i] in separators
    requires forall j :: 0 <= j < i ==> s[j] !in separators
    ensures Split(s, separators) == [s[..i]] + Split(s[i + 1..], separators)
    decreases i
  {
    if i > 0 {
      SplitAtFirst(s[1..], separators, i - 1);
      assert s[1..][..i - 1] == s[1..i];
      assert s[1..][i..] == s[i + 1..];
      assert [s[0]] + s[1..i] == s[..i];
    } else {
      assert s[1..] == s[i + 1..];
    }
  }

  lemma {:induction false} RemoveEmptyConcat(parts: seq<string>)
    ensures Concat(RemoveEmpty(parts)) == Concat(parts)
    decreases |parts|
  {
    if parts != [] {
      RemoveEmptyConcat(parts[1..]);
      if parts[0] == "" {
        assert RemoveEmpty(parts) == RemoveEmpty(parts[1..]);
        assert Concat(parts) == "" + Concat(parts[1..]) == Concat(parts[1..]);
      } else {
        var r := RemoveEmpty(parts[1..]);
        assert ([parts[0]] + r)[1..] == r;
      }
    }
  }

  /**
   * The pieces of a connection string are non-empty, contain neither ';' nor ' ', and put
   * together they are exactly the input's other characters, in order.
   */
  lemma PiecesOfText(text: string)
    ensures forall p :: p in Pieces(text) ==> p != "" && ';' !in p && ' ' !in p
    ensures Concat(Pieces(text)) == Without(text, PairSeparators)
  {
    var parts := Split(text, PairSeparators);
    SplitPartsHaveNoSeparator(text, PairSeparators);
    forall p | p in Pieces(text) ensures p != "" && ';' !in p && ' ' !in p {
      var i :| 0 <= i < |parts| && parts[i] == p;
      assert ';' in PairSeparators && ' ' in PairSeparators;
    }
    SplitConcat(text, PairSeparators);
    RemoveEmptyConcat(parts);
  }

  /** A text with no ';' or ' ' and not empty is a single piece. */
  lemma SinglePiece(text: string)
    requires text != [] && ';' !in text && ' ' !in text
    ensures Pieces(text) == [text]
  {
    SplitWithoutSeparator(text, PairSeparators);
    assert RemoveEmpty([text]) == [text] + RemoveEmpty([text][1..]);
    assert [text][1..] == [];
  }

  // ---------------------------------------------------------------------------------------
  // Keys and values

  /** A piece has a value exactly when it contains an '='. */
  lemma HasValueIffEquals(piece: string)
    ensures HasValue(piece) <==> KeyValueSeparator in piece
  {
    if KeyValueSeparator in piece {
      var i := FirstEquals(piece);
      SplitAtFirst(piece, {KeyValueSeparator}, i);
    } else {
      SplitWithoutSeparator(piece, {KeyValueSeparator});
    }
  }

  /** The position of the first '=' in a piece that has one. */
  function FirstEquals(piece: string): (i: nat)
    requires KeyValueSeparator in piece
    ensures i < |piece| && piece[i] == KeyValueSeparator
    ensures forall j :: 0 <= j < i ==> piece[j] != KeyValueSeparator
    decreases |piece|
  {
    if piece[0] == KeyValueSeparator then 0 else 1 + FirstEquals(piece[1..])
  }

  /**
   * The key is the text before the first '='; the value is the text between the first and
   * the second '=' (to the end when there is no second one); text after a second '=' is dropped.
   * Without any '=' the key is the whole piece.
   */
  lemma KeyAndValue(piece: string)
    ensures KeyValueSeparator !in piece ==> Key(piece) == piece && !HasValue(piece)
    ensures KeyValueSeparator in piece ==>
      var i := FirstEquals(piece);
      var after := piece[i + 1..];
      && HasValue(piece)
      && Key(piece) == piece[..i]
      && Value(piece) == (if KeyValueSeparator in after then after[..FirstEquals(after)] else after)
  {
    var eq := {KeyValueSeparator};
    if KeyValueSeparator !in piece {
      SplitWithoutSeparator(piece, eq);
    } else {
      var i := FirstEquals(piece);
      var after := piece[i + 1..];
      SplitAtFirst(piece, eq, i);
      if KeyValueSeparator in after {
        SplitAtFirst(after, eq, FirstEquals(after));
      } else {
        SplitWithoutSeparator(after, eq);
      }
    }
  }

  // ---------------------------------------------------------------------------------------
  // The dictionary and the result

  /** Every piece contains an '='. */
  predicate AllHaveValues(pieces: seq<string>) {
    forall i :: 0 <= i < |pieces| ==> HasValue(pieces[i])
  }

  /** The keys of the pieces are pairwise different. */
  predicate DistinctKeys(pieces: seq<string>) {
    forall i, j :: 0 <= i < j < |pieces| ==> Key(pieces[i]) != Key(pieces[j])
  }

  /** The keys of the pieces. */
  function KeySet(pieces: seq<string>): set<string> {
    set i | 0 <= i < |pieces| :: Key(pieces[i])
  }

  /** `d` maps the key of every piece to that piece's value. */
  predicate MapsEveryPiece(d: map<string, string>, pieces: seq<string>) {
    forall i :: 0 <= i < |pieces| ==> HasValue(pieces[i]) && Key(pieces[i]) in d && d[Key(pieces[i])] == Value(pieces[i])
  }

  lemma ToDictionaryStep(init: seq<string>, piece: string, d: map<string, string>)
    requires AllHaveValues(init) && DistinctKeys(init)
    requires d.Keys == KeySet(init) && MapsEveryPiece(d, init)
    requires HasValue(piece) && Key(piece) !in d
    ensures AllHaveValues(init + [piece]) && DistinctKeys(init + [piece])
    ensures d[Key(piece) := Value(piece)].Keys == KeySet(init + [piece])
    ensures MapsEveryPiece(d[Key(piece) := Value(piece)], init + [piece])
  {
    var pieces := init + [piece];
    assert forall i :: 0 <= i < |init| ==> pieces[i] == init[i];
    KeySetAppend(init, piece);
    DistinctKeysAppend(init, piece);
  }

  lemma KeySetAppend(init: seq<string>, piece: string)
    ensures KeySet(init + [piece]) == KeySet(init) + {Key(piece)}
  {
    var pieces := init + [piece];
    forall k | k in KeySet(pieces) ensures k in KeySet(init) + {Key(piece)} {
      var i :| 0 <= i < |pieces| && Key(pieces[i]) == k;
      if i < |init| {
        assert Key(init[i]) == k;
      }
    }
    forall k | k in KeySet(init) + {Key(piece)} ensures k in KeySet(pieces) {
      if k == Key(piece) {
        assert Key(pieces[|init|]) == k;
      } else {
        var i :| 0 <= i < |init| && Key(init[i]) == k;
        assert Key(pieces[i]) == k;
      }
    }
  }

  lemma DistinctKeysAppend(init: seq<string>, piece: string)
    requires DistinctKeys(init) && Key(piece) !in KeySet(init)
    ensures DistinctKeys(init + [piece])
  {
    var pieces := init + [piece];
    forall i, j | 0 <= i < j < |pieces| ensures Key(pieces[i]) != Key(pieces[j]) {
      if j == |init| {
        assert Key(init[i]) in KeySet(init);
      } else {
        assert pieces[i] == init[i] && pieces[j] == init[j];
      }
    }
  }

  /**
   * `ToDictionary` succeeds exactly when every piece has an '=' and no key repeats; its
   * dictionary then maps each piece's key to that piece's value and has no other keys.
   */
  lemma {:induction false} ToDictionaryMeaning(pieces: seq<string>)
    ensures ToDictionary(pieces).Success? <==> AllHaveValues(pieces) && DistinctKeys(pieces)
    ensures ToDictionary(pieces).Success? ==>
      ToDictionary(pieces).value.Keys == KeySet(pieces) && MapsEveryPiece(ToDictionary(pieces).value, pieces)
    decreases |pieces|
  {
    if pieces != [] {
      var n := |pieces|;
      var init := pieces[..n - 1];
      var piece := pieces[n - 1];
      assert pieces == init + [piece];
      ToDictionaryMeaning(init);
      if ToDictionary(init).Success? {
        var d := ToDictionary(init).value;
        if HasValue(piece) && Key(piece) !in d {
          ToDictionaryStep(init, piece, d);
        } else if HasValue(piece) {
          var i :| 0 <= i < n - 1 && Key(init[i]) == Key(piece);
          assert Key(pieces[i]) == Key(pieces[n - 1]);
        }
      } else {
        assert !(AllHaveValues(init) && DistinctKeys(init));
        assert forall i :: 0 <= i < n - 1 ==> pieces[i] == init[i];
      }
    }
  }

  /**
   * `CreateFromString` succeeds exactly when every piece has an '=', no key repeats and all
   * three required keys occur; the fields are then the values of the pieces with those keys,
   * and any other keys are ignored.
   */
  lemma CreateFromStringMeaning(text: string)
    ensures
      var pieces := Pieces(text);
      CreateFromString(text).Success? <==>
        && AllHaveValues(pieces)
        && DistinctKeys(pieces)
        && {AccessKeyIdKey, SecretAccessKeyKey, RegionEndpointKey} <= KeySet(pieces)
    ensures
      var pieces := Pieces(text);
      CreateFromString(text).Success? ==>
        forall i :: 0 <= i < |pieces| ==>
          && (Key(pieces[i]) == AccessKeyIdKey ==> CreateFromString(text).value.accessKeyId == Value(pieces[i]))
          && (Key(pieces[i]) == SecretAccessKeyKey ==> CreateFromString(text).value.secretAccessKey == Value(pieces[i]))
          && (Key(pieces[i]) == RegionEndpointKey ==> CreateFromString(text).value.regionEndpoint == Value(pieces[i]))
  {
    ToDictionaryMeaning(Pieces(text));
  }

  /** A piece without '=' makes the parser fail (for the first such piece, with that piece). */
  lemma PieceWithoutEqualsFails(text: string, i: nat)
    requires i < |Pieces(text)| && KeyValueSeparator !in Pieces(text)[i]
    ensures CreateFromString(text).Failure?
  {
    HasValueIffEquals(Pieces(text)[i]);
    CreateFromStringMeaning(text);
  }
}
