/** The Fiat–Shamir challenge of src/helper.py (`to_challenge`): the list of group
    elements is packed into one length-prefixed string and that string is hashed.
    Besides the packing itself this module defines a decoder for the packed state,
    which makes the doc-comment's claim that the packing is bijective provable. */
module Challenge {

  datatype Option<T> = None | Some(value: T)

  /** A group element as it enters a challenge: the group it lives in and its exponent. */
  datatype Elem = G1Elem(x: int) | G2Elem(x: int)

  predicate IsDigit(c: char)
  {
    '0' <= c <= '9'
  }

  predicate AllDigits(s: string)
  {
    forall i :: 0 <= i < |s| ==> IsDigit(s[i])
  }

  function DigitChar(d: int): (c: char)
    requires 0 <= d < 10
    ensures IsDigit(c)
  {
    "0123456789"[d]
  }

  /** Python's `str(n)` for a natural number: decimal, without leading zeros. */
  function Decimal(n: nat): (s: string)
    ensures |s| >= 1 && AllDigits(s)
    ensures |s| > 1 ==> s[0] != '0'
  {
    if n < 10 then [DigitChar(n)] else Decimal(n / 10) + [DigitChar(n % 10)]
  }

  /** The number a string of decimal digits denotes. */
  function DigitsValue(s: string): nat
    requires AllDigits(s)
  {
    if s == [] then 0 else 10 * DigitsValue(s[..|s| - 1]) + (s[|s| - 1] as int - '0' as int)
  }

  /** One field of the state: `"%s||%s" % (len(x), x)`. */
  function Frame(t: string): string
  {
    Decimal(|t|) + "||" + t
  }

  function Frames(fs: seq<string>): (r: seq<string>)
    ensures |r| == |fs| && forall i :: 0 <= i < |fs| ==> r[i] == Frame(fs[i])
  {
    if fs == [] then [] else [Frame(fs[0])] + Frames(fs[1..])
  }

  /** `"|".join(fields)`. */
  function Join(fs: seq<string>): string
  {
    if fs == [] then "" else if |fs| == 1 then fs[0] else fs[0] + "|" + Join(fs[1..])
  }

  /** The packed state: the element count comes first, as a field of its own, and
      every field is length-prefixed. */
  function State(texts: seq<string>): string
  {
    Join(Frames([Decimal(|texts|)] + texts))
  }

  /** `map(str, elements)` for the group elements, with `show` standing for `str`. */
  function Texts(show: Elem -> string, elements: seq<Elem>): (r: seq<string>)
    ensures |r| == |elements| && forall i :: 0 <= i < |elements| ==> r[i] == show(elements[i])
  {
    if elements == [] then [] else [show(elements[0])] + Texts(show, elements[1..])
  }

  /** `to_challenge(elements)`: `digest` stands for SHA-256 of the UTF-8 encoding read
      back as a big-endian integer, and is left uninterpreted. */
  function ToChallenge(digest: string -> nat, show: Elem -> string, elements: seq<Elem>): nat
  {
    digest(State(Texts(show, elements)))
  }

  // ---------------------------------------------------------------------------
  // Decoding

  /** The number of decimal digits at the front of `s`. */
  function LeadingDigits(s: string): (k: nat)
    ensures k <= |s| && AllDigits(s[..k]) && (k < |s| ==> !IsDigit(s[k]))
  {
    if s == [] || !IsDigit(s[0]) then 0
    else
      var k := 1 + LeadingDigits(s[1..]);
      assert s[..k] == [s[0]] + s[1..][..k - 1];
      k
  }

  /** Reads one field: its decimal length, the `||` marker, then exactly that many
      characters. Returns the text and what follows it. */
  function ReadFrame(s: string): Option<(string, string)>
  {
    var k := LeadingDigits(s);
    if k == 0 then None
    else
      var n := DigitsValue(s[..k]);
      if |s| < k + 2 + n || s[k..k + 2] != "||" then None
      else Some((s[k + 2..k + 2 + n], s[k + 2 + n..]))
  }

  /** Reads fields separated by single `|` characters up to the end of `s`. */
  function ReadFrames(s: string): Option<seq<string>>
    decreases |s|
  {
    match ReadFrame(s)
    case None => None
    case Some((t, rest)) =>
      if rest == [] then Some([t])
      else if rest[0] != '|' then None
      else
        match ReadFrames(rest[1..])
        case None => None
        case Some(ts) => Some([t] + ts)
  }

  /** Inverse of `State`: reads all fields, checks that the first one is the count of
      the others and returns the others. */
  function Unpack(s: string): Option<seq<string>>
  {
    match ReadFrames(s)
    case None => None
    case Some(fs) =>
      if fs != [] && AllDigits(fs[0]) && DigitsValue(fs[0]) == |fs| - 1 then Some(fs[1..]) else None
  }

  // ---------------------------------------------------------------------------
  // Properties

  lemma {:induction false} DecimalValue(n: nat)
    ensures DigitsValue(Decimal(n)) == n
  {
    if n >= 10 {
      var s := Decimal(n);
      DecimalValue(n / 10);
      assert s[..|s| - 1] == Decimal(n / 10);
      assert s[|s| - 1] == DigitChar(n % 10);
    } else {
      assert "0123456789"[n] as int - '0' as int == n;
    }
  }

  lemma {:induction false} LeadingDigitsStop(d: string, s: string)
    requires AllDigits(d) && s != [] && !IsDigit(s[0])
    ensures LeadingDigits(d + s) == |d|
  {
    if d != [] {
      assert (d + s)[1..] == d[1..] + s;
      LeadingDigitsStop(d[1..], s);
    } else {
      assert d + s == s;
    }
  }

  /** A field is read back exactly, whatever follows it. */
  lemma ReadFrameOf(t: string, rest: string)
    ensures ReadFrame(Frame(t) + rest) == Some((t, rest))
  {
    var d := Decimal(|t|);
    var s := Frame(t) + rest;
    assert s == d + ("||" + t + rest);
    LeadingDigitsStop(d, "||" + t + rest);
    assert s[..|d|] == d;
    DecimalValue(|t|);
    assert s[|d|..|d| + 2] == "||";
    assert s[|d| + 2..|d| + 2 + |t|] == t;
    assert s[|d| + 2 + |t|..] == rest;
  }

  lemma {:induction false} ReadFramesOf(fs: seq<string>)
    requires fs != []
    ensures ReadFrames(Join(Frames(fs))) == Some(fs)
  {
    if |fs| == 1 {
      var f := Frame(fs[0]);
      assert Join(Frames(fs)) == f;
      ReadFrameOf(fs[0], "");
      assert f + "" == f;
      assert ReadFrame(f) == Some((fs[0], ""));
      assert [fs[0]] == fs;
    } else {
      var tail := Join(Frames(fs[1..]));
      assert Frames(fs)[1..] == Frames(fs[1..]);
      assert Join(Frames(fs)) == Frame(fs[0]) + ("|" + tail);
      ReadFrameOf(fs[0], "|" + tail);
      assert ("|" + tail)[1..] == tail;
      ReadFramesOf(fs[1..]);
      assert [fs[0]] + fs[1..] == fs;
    }
  }

  /** The state consists of exactly `|texts| + 1` fields: the count, then each text. */
  lemma StateFields(texts: seq<string>)
    ensures ReadFrames(State(texts)) == Some([Decimal(|texts|)] + texts)
  {
    ReadFramesOf([Decimal(|texts|)] + texts);
  }

  /** Decoding the packed state gives back the list of texts. */
  lemma UnpackState(texts: seq<string>)
    ensures Unpack(State(texts)) == Some(texts)
  {
    StateFields(texts);
    DecimalValue(|texts|);
    var fs := [Decimal(|texts|)] + texts;
    assert fs[1..] == texts;
  }

  /** Packing is injective: different lists, including reorderings of one list,
      give different states. */
  lemma StateInjective(a: seq<string>, b: seq<string>)
    ensures State(a) == State(b) <==> a == b
  {
    if State(a) == State(b) {
      UnpackState(a);
      UnpackState(b);
    }
  }

  /** With an injective `str`, two element lists give the same packed state only
      when they are the same list, so the challenge hashes the elements themselves. */
  lemma TextsInjective(show: Elem -> string, a: seq<Elem>, b: seq<Elem>)
    requires forall x, y :: show(x) == show(y) ==> x == y
    ensures State(Texts(show, a)) == State(Texts(show, b)) <==> a == b
  {
    StateInjective(Texts(show, a), Texts(show, b));
    if Texts(show, a) == Texts(show, b) {
      assert |a| == |b|;
      forall i | 0 <= i < |a| ensures a[i] == b[i] {
        assert show(a[i]) == show(b[i]);
      }
    }
  }
}
