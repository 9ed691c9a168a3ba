/** The query strings `URLSearchParams` produces: `name=value` pairs joined
    by `&`, each name and value passed through the form-urlencoded byte
    serializer. The serializer itself is a parameter; `FormEncoder` states
    the two facts about it the model relies on. */
module QueryString {
  import opened Wrappers
  import opened Text

  type Param = (string, string)

  /** The form-urlencoded serializer never emits a raw `&` or `=`
      (it percent-encodes them) and is injective. */
  ghost predicate FormEncoder(encode: string -> string) {
    && (forall s :: '&' !in encode(s) && '=' !in encode(s))
    && (forall a, b :: encode(a) == encode(b) ==> a == b)
  }

  function EncodePairs(ps: seq<Param>, encode: string -> string): (pieces: seq<string>)
    ensures |pieces| == |ps|
    ensures forall i :: 0 <= i < |ps| ==> pieces[i] == encode(ps[i].0) + "=" + encode(ps[i].1)
    decreases |ps|
  {
    if |ps| == 0 then []
    else [encode(ps[0].0) + "=" + encode(ps[0].1)] + EncodePairs(ps[1..], encode)
  }

  /** `new URLSearchParams(ps).toString()`. */
  function Serialize(ps: seq<Param>, encode: string -> string): string {
    Join(EncodePairs(ps, encode), '&')
  }

  /** The pairs as they appear on the wire: every name and value encoded. */
  function Encoded(ps: seq<Param>, encode: string -> string): (es: seq<Param>)
    ensures |es| == |ps|
    ensures forall i :: 0 <= i < |ps| ==> es[i] == (encode(ps[i].0), encode(ps[i].1))
    decreases |ps|
  {
    if |ps| == 0 then [] else [(encode(ps[0].0), encode(ps[0].1))] + Encoded(ps[1..], encode)
  }

  /** A `name=value` piece split at its first `=`; a piece without `=` is a name with an empty value. */
  function ParsePair(piece: string): Param {
    match IndexOf(piece, '=')
    case None => (piece, "")
    case Some(i) => (piece[..i], piece[i + 1..])
  }

  function ParsePairs(pieces: seq<string>): (ps: seq<Param>)
    ensures |ps| == |pieces|
    ensures forall i :: 0 <= i < |pieces| ==> ps[i] == ParsePair(pieces[i])
    decreases |pieces|
  {
    if |pieces| == 0 then [] else [ParsePair(pieces[0])] + ParsePairs(pieces[1..])
  }

  /** Reads a query string back into its (still encoded) pairs, in order. */
  function Parse(q: string): seq<Param> {
    if q == "" then [] else ParsePairs(Split(q, '&'))
  }

  /** The value of the first pair called `name`. */
  function Lookup(ps: seq<Param>, name: string): (v: Option<string>)
    ensures v.None? <==> forall i :: 0 <= i < |ps| ==> ps[i].0 != name
    ensures v.Some? ==> exists i :: 0 <= i < |ps| && ps[i] == (name, v.value)
                          && forall j :: 0 <= j < i ==> ps[j].0 != name
    decreases |ps|
  {
    if |ps| == 0 then None
    else if ps[0].0 == name then
      assert ps[0] == (name, ps[0].1);
      Some(ps[0].1)
    else
      var v := Lookup(ps[1..], name);
      if v.Some? then
        var i :| 0 <= i < |ps[1..]| && ps[1..][i] == (name, v.value)
                 && forall j :: 0 <= j < i ==> ps[1..][j].0 != name;
        assert ps[i + 1] == (name, v.value);
        assert forall j :: 0 <= j < i + 1 ==> ps[j].0 != name by {
          forall j | 0 <= j < i + 1 ensures ps[j].0 != name {
            if j > 0 {
              assert ps[j] == ps[1..][j - 1];
            }
          }
        }
        v
      else
        assert forall i :: 0 <= i < |ps| ==> ps[i].0 != name by {
          forall i | 0 <= i < |ps| ensures ps[i].0 != name {
            if i > 0 {
              assert ps[i] == ps[1..][i - 1];
            }
          }
        }
        v
  }

  lemma LookupFirst(ps: seq<Param>, i: nat, name: string)
    requires i < |ps| && ps[i].0 == name
    requires forall j :: 0 <= j < i ==> ps[j].0 != name
    ensures Lookup(ps, name) == Some(ps[i].1)
  {
    var v := Lookup(ps, name);
    var k :| 0 <= k < |ps| && ps[k] == (name, v.value) && forall j :: 0 <= j < k ==> ps[j].0 != name;
    assert k == i;
  }

  lemma ParseEncodedPair(name: string, value: string)
    requires '=' !in name && '=' !in value
    ensures ParsePair(name + "=" + value) == (name, value)
  {
    IndexOfAfter(name, '=', value);
    var s := name + "=" + value;
    assert s[..|name|] == name;
    assert s[|name| + 1..] == value;
  }

  /** Parsing a serialized parameter list gives back every pair, encoded, in order. */
  lemma {:induction false} ParseSerialize(ps: seq<Param>, encode: string -> string)
    requires FormEncoder(encode)
    requires |ps| > 0
    ensures Parse(Serialize(ps, encode)) == Encoded(ps, encode)
  {
    var pieces := EncodePairs(ps, encode);
    forall i | 0 <= i < |pieces| ensures '&' !in pieces[i] {
      assert '&' !in encode(ps[i].0) && '&' !in encode(ps[i].1);
      assert pieces[i] == encode(ps[i].0) + "=" + encode(ps[i].1);
    }
    SplitJoin(pieces, '&');
    assert Serialize(ps, encode) != "" by {
      JoinKeepsFirst(pieces, '&');
      assert pieces[0] == encode(ps[0].0) + "=" + encode(ps[0].1);
    }
    forall i | 0 <= i < |ps| ensures ParsePair(pieces[i]) == (encode(ps[i].0), encode(ps[i].1)) {
      ParseEncodedPair(encode(ps[i].0), encode(ps[i].1));
    }
  }

  lemma JoinKeepsFirst(parts: seq<string>, sep: char)
    requires |parts| > 0
    ensures |Join(parts, sep)| >= |parts[0]|
  {
  }
}
