/** `parse_search` of the odyexp viewer (crates/odyexp-viewer/src/app_context.rs:175-189):
    a URL query string turned into a key/value map. Percent-decoding is a
    parameter: `decode` gives the decoded text, or `None` where decoding
    fails. */
module OdySearch {
  import opened Wrappers
  import opened Text

  /** `urlencoding::decode` followed by `unwrap_or_default`: text that fails to
      decode becomes the empty string. */
  function DecodeOrEmpty(decode: string -> Option<string>, s: string): (r: string)
    ensures decode(s).None? ==> r == ""
    ensures decode(s).Some? ==> r == decode(s).value
  {
    match decode(s)
    case None => ""
    case Some(v) => v
  }

  /** The `&`-separated pieces of a query, after all its leading `?`s. */
  function Pieces(search: string): (r: seq<string>)
    ensures |r| >= 1
  {
    SplitOn(TrimStart(search, '?'), '&')
  }

  /** The insertions the pieces make, in order: one decoded (key, value) pair
      for each piece that holds a `=`, split at its first `=`. */
  function Insertions(pieces: seq<string>, decode: string -> Option<string>): (r: seq<(string, string)>)
    ensures |r| <= |pieces|
  {
    if pieces == [] then []
    else
      var last := pieces[|pieces| - 1];
      Insertions(pieces[..|pieces| - 1], decode) +
        match SplitOnce(last, '=')
        case None => []
        case Some(kv) => [(DecodeOrEmpty(decode, kv.0), DecodeOrEmpty(decode, kv.1))]
  }

  /** The map the insertions build, each one overwriting an earlier value for
      the same key. */
  function MapOf(pairs: seq<(string, string)>): map<string, string>
  {
    if pairs == [] then map[]
    else MapOf(pairs[..|pairs| - 1])[pairs[|pairs| - 1].0 := pairs[|pairs| - 1].1]
  }

  /** The keys of the map are exactly the keys inserted. */
  lemma {:induction false} MapOfKeys(pairs: seq<(string, string)>, k: string)
    ensures k in MapOf(pairs) <==> exists i :: 0 <= i < |pairs| && pairs[i].0 == k
  {
    if pairs != [] {
      var init := pairs[..|pairs| - 1];
      MapOfKeys(init, k);
      assert forall i :: 0 <= i < |init| ==> init[i] == pairs[i];
    }
  }

  /** The map `parse_search` returns. */
  function SearchParams(search: string, decode: string -> Option<string>): map<string, string>
  {
    MapOf(Insertions(Pieces(search), decode))
  }

  /** `parse_search`: a loop over the pieces that inserts into a mutable map. */
  method ParseSearch(search: string, decode: string -> Option<string>) returns (params: map<string, string>)
    ensures params == SearchParams(search, decode)
  {
    params := map[];
    var pieces := SplitOn(TrimStart(search, '?'), '&');
    var i := 0;
    while i < |pieces|
      invariant 0 <= i <= |pieces|
      invariant params == MapOf(Insertions(pieces[..i], decode))
    {
      InsertionsStep(pieces, i, decode);
      match SplitOnce(pieces[i], '=') {
        case None =>
        case Some(kv) =>
          params := params[DecodeOrEmpty(decode, kv.0) := DecodeOrEmpty(decode, kv.1)];
      }
      i := i + 1;
    }
    assert pieces[..i] == pieces;
  }

  /** One more piece: the insertions of `pieces[..i + 1]` extend those of
      `pieces[..i]` by what the piece adds, and so does the map. */
  lemma InsertionsStep(pieces: seq<string>, i: nat, decode: string -> Option<string>)
    requires i < |pieces|
    ensures SplitOnce(pieces[i], '=').None? ==>
              MapOf(Insertions(pieces[..i + 1], decode)) == MapOf(Insertions(pieces[..i], decode))
    ensures SplitOnce(pieces[i], '=').Some? ==>
              var kv := SplitOnce(pieces[i], '=').value;
              MapOf(Insertions(pieces[..i + 1], decode)) ==
                MapOf(Insertions(pieces[..i], decode))[DecodeOrEmpty(decode, kv.0) := DecodeOrEmpty(decode, kv.1)]
  {
    assert pieces[..i + 1][..i] == pieces[..i];
    var before := Insertions(pieces[..i], decode);
    if SplitOnce(pieces[i], '=').Some? {
      var kv := SplitOnce(pieces[i], '=').value;
      var pairs := before + [(DecodeOrEmpty(decode, kv.0), DecodeOrEmpty(decode, kv.1))];
      assert Insertions(pieces[..i + 1], decode) == pairs;
      assert pairs[..|pairs| - 1] == before;
    } else {
      assert Insertions(pieces[..i + 1], decode) == before + [];
      assert before + [] == before;
    }
  }

  // ---------------------------------------------------------------------------
  // Properties

  /** A later insertion for the same key wins: the value of a key is the value
      of its last insertion. */
  lemma {:induction false} LastInsertionWins(pairs: seq<(string, string)>, i: nat)
    requires i < |pairs|
    requires forall j :: i < j < |pairs| ==> pairs[j].0 != pairs[i].0
    ensures pairs[i].0 in MapOf(pairs) && MapOf(pairs)[pairs[i].0] == pairs[i].1
  {
    if i < |pairs| - 1 {
      var init := pairs[..|pairs| - 1];
      assert init[i] == pairs[i];
      LastInsertionWins(init, i);
    }
  }

  /** A piece without `=` adds nothing, and a piece with one adds exactly its
      decoded key and value, split at its first `=`. */
  lemma InsertionOfPiece(pieces: seq<string>, piece: string, decode: string -> Option<string>)
    ensures '=' !in piece ==> Insertions(pieces + [piece], decode) == Insertions(pieces, decode)
    ensures forall k, v :: piece == k + "=" + v && '=' !in k ==>
              Insertions(pieces + [piece], decode) ==
                Insertions(pieces, decode) + [(DecodeOrEmpty(decode, k), DecodeOrEmpty(decode, v))]
  {
    assert (pieces + [piece])[..|pieces|] == pieces;
    forall k, v | piece == k + "=" + v && '=' !in k
      ensures SplitOnce(piece, '=') == Some((k, v))
    {
      SplitAtFirstEquals(k, v);
    }
  }

  /** The split is at the first `=`: what follows it, further `=`s included,
      is the value. */
  lemma {:induction false} SplitAtFirstEquals(k: string, v: string)
    requires '=' !in k
    ensures SplitOnce(k + "=" + v, '=') == Some((k, v))
  {
    if k != [] {
      assert (k + "=" + v)[0] == k[0] != '=';
      assert (k + "=" + v)[1..] == k[1..] + "=" + v;
      SplitAtFirstEquals(k[1..], v);
      assert [k[0]] + k[1..] == k;
    } else {
      assert (k + "=" + v)[1..] == v;
    }
  }

  /** Every key in the map comes from a piece of the query that holds a `=`,
      and its value is the decoded text after that piece's first `=`. */
  lemma {:induction false} KeysComeFromPieces(pieces: seq<string>, decode: string -> Option<string>, key: string)
    requires key in MapOf(Insertions(pieces, decode))
    ensures exists j, k, v :: 0 <= j < |pieces| && pieces[j] == k + "=" + v && '=' !in k
              && DecodeOrEmpty(decode, k) == key
  {
    var pairs := Insertions(pieces, decode);
    MapOfKeys(pairs, key);
    var i :| 0 <= i < |pairs| && pairs[i].0 == key;
    InsertionSource(pieces, decode, i);
  }

  lemma {:induction false} InsertionSource(pieces: seq<string>, decode: string -> Option<string>, i: nat)
    requires i < |Insertions(pieces, decode)|
    ensures exists j, k, v :: 0 <= j < |pieces| && pieces[j] == k + "=" + v && '=' !in k
              && Insertions(pieces, decode)[i] == (DecodeOrEmpty(decode, k), DecodeOrEmpty(decode, v))
  {
    var init := pieces[..|pieces| - 1];
    var last := pieces[|pieces| - 1];
    if i < |Insertions(init, decode)| {
      InsertionSource(init, decode, i);
      var j, k, v :| 0 <= j < |init| && init[j] == k + "=" + v && '=' !in k
                     && Insertions(init, decode)[i] == (DecodeOrEmpty(decode, k), DecodeOrEmpty(decode, v));
      assert pieces[j] == init[j];
    } else {
      var kv := SplitOnce(last, '=').value;
      assert pieces[|pieces| - 1] == kv.0 + "=" + kv.1;
    }
  }

  /** Leading `?`s are all stripped, so any number of them parses the same. */
  lemma LeadingMarksIgnored(search: string, decode: string -> Option<string>)
    ensures SearchParams("?" + search, decode) == SearchParams(search, decode)
  {
    assert ("?" + search)[1..] == search;
  }

  /** An empty query, or one that is only `?`s, yields the empty map. */
  lemma {:induction false} EmptyQuery(search: string, decode: string -> Option<string>)
    requires forall i :: 0 <= i < |search| ==> search[i] == '?'
    ensures SearchParams(search, decode) == map[]
  {
    assert TrimStart(search, '?') == [];
    assert Pieces(search) == [""];
    assert Insertions([""], decode) == Insertions([], decode);
  }
}
