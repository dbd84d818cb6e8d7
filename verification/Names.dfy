/** Path components: which names the encoder accepts, and what it makes of them. */
module Names {
  import opened Words
  import opened Errors

  /** A Unicode scalar value. */
  type Scalar = x: int | 0 <= x < 0x11_0000 && !(0xd800 <= x < 0xe000)

  const NAME_MAX: nat := 255

  /** One scalar value in UTF-16. */
  function UnitsOf(ch: Scalar): (u: seq<u16>)
    ensures 1 <= |u| <= 2
  {
    if ch < 0x1_0000 then [ch] else [0xd800 + (ch - 0x1_0000) / 0x400, 0xdc00 + (ch - 0x1_0000) % 0x400]
  }

  function Utf16(name: seq<Scalar>): seq<u16> {
    if name == [] then [] else UnitsOf(name[0]) + Utf16(name[1..])
  }

  /** Names the encoder refuses, whatever their length. */
  predicate Refused(name: seq<Scalar>) {
    name == [] || name == [0x2e] || name == [0x2e, 0x2e] || exists i :: 0 <= i < |name| && Separator(name[i])
  }

  predicate Separator(ch: Scalar) {
    ch == 0 || ch == 0x2f || ch == 0x5c
  }

  function Encoded(name: seq<Scalar>): Result<seq<u16>> {
    if Refused(name) then Err(InvalidPath)
    else if |Utf16(name)| > NAME_MAX then Err(NameTooLong)
    else Ok(Utf16(name))
  }

  lemma {:induction false} Utf16Concat(a: seq<Scalar>, b: seq<Scalar>)
    ensures Utf16(a + b) == Utf16(a) + Utf16(b)
  {
    if a == [] {
      assert a + b == b;
    } else {
      assert (a + b)[1..] == a[1..] + b;
      Utf16Concat(a[1..], b);
    }
  }

  /** A name a path may have: not empty, not "." or "..", and without NUL, '/' and
      '\\'.  Its length is another matter. */
  ghost predicate IsName(name: seq<Scalar>) {
    name != [] && name != [0x2e] && name != [0x2e, 0x2e] && 0 !in name && 0x2f !in name && 0x5c !in name
  }

  /** Where a name has a scalar beyond the basic plane. */
  ghost function Wide(name: seq<Scalar>): set<nat> {
    set i: nat | i < |name| && name[i] >= 0x1_0000
  }

  /** The length of a name: one for each scalar, and one more for each wide one. */
  ghost function UnitCount(name: seq<Scalar>): nat {
    |name| + |Wide(name)|
  }

  lemma {:induction false} Utf16Length(name: seq<Scalar>)
    ensures |Utf16(name)| == UnitCount(name)
  {
    if name == [] {
      assert Wide(name) == {};
    } else {
      var n := |name| - 1;
      assert name == name[..n] + [name[n]];
      Utf16Length(name[..n]);
      Utf16Concat(name[..n], [name[n]]);
      assert Wide(name) == Wide(name[..n]) + if name[n] >= 0x1_0000 then {n} else {};
    }
  }

  /** Exactly the names of at most 255 units are encoded; what is no name is refused
      as such, however long it is. */
  lemma EncodedExactly(name: seq<Scalar>)
    ensures Encoded(name).Ok? <==> IsName(name) && UnitCount(name) <= 255
    ensures Encoded(name) == Err(InvalidPath) <==> !IsName(name)
    ensures Encoded(name) == Err(NameTooLong) <==> IsName(name) && UnitCount(name) > 255
    ensures Encoded(name).Ok? ==> |Encoded(name).value| == UnitCount(name)
  {
    Utf16Length(name);
    assert !IsName(name) <==> Refused(name);
  }

  lemma Utf16Next(name: seq<Scalar>, i: nat)
    requires i < |name|
    ensures Utf16(name[..0]) == []
    ensures Utf16(name[..i + 1]) == Utf16(name[..i]) + UnitsOf(name[i])
  {
    assert name[..i + 1] == name[..i] + [name[i]];
    Utf16Concat(name[..i], [name[i]]);
  }

  lemma FrontIsShorter(name: seq<Scalar>, n: nat)
    requires n <= |name|
    ensures |Utf16(name[..n])| <= |Utf16(name)|
  {
    assert name == name[..n] + name[n..];
    Utf16Concat(name[..n], name[n..]);
  }

  lemma EncodedIs(name: seq<Scalar>)
    requires Encoded(name).Ok?
    ensures Encoded(name).value == Utf16(name)
  {
  }

  /** Encode scalar by scalar into a buffer of 255 units. */
  method EncodeName(name: seq<Scalar>) returns (r: Result<seq<u16>>)
    ensures r == Encoded(name) && (r.Err? ==> r.error in {InvalidPath, NameTooLong})
    ensures r == Err(InvalidPath) <==>
      name == [] || name == [0x2e] || name == [0x2e, 0x2e] || 0 in name || 0x2f in name || 0x5c in name
    ensures r.Ok? <==> r != Err(InvalidPath) && |name| + |set i: nat | i < |name| && name[i] >= 0x1_0000| <= 255
  {
    hide Utf16;
    hide UnitsOf;
    hide IsName;
    EncodedExactly(name);
    if name == [] || name == [0x2e] || name == [0x2e, 0x2e] { return Err(InvalidPath); }
    for i := 0 to |name|
      invariant forall j :: 0 <= j < i ==> !Separator(name[j])
    {
      if Separator(name[i]) { return Err(InvalidPath); }
    }
    Utf16Next(name, 0);
    var out: seq<u16> := [];
    for i := 0 to |name|
      invariant out == Utf16(name[..i]) && |out| <= NAME_MAX
    {
      var encoded := UnitsOf(name[i]);
      Utf16Next(name, i);
      if |out| + |encoded| > NAME_MAX {
        FrontIsShorter(name, i + 1);
        return Err(NameTooLong);
      }
      out := out + encoded;
    }
    assert name[..|name|] == name;
    return Ok(out);
  }

  /** The reading of a UTF-16 string, pairing surrogates. */
  function Decoded(units: seq<u16>): seq<int> {
    if units == [] then []
    else if 0xd800 <= units[0] < 0xdc00 && |units| > 1 && 0xdc00 <= units[1] < 0xe000 then
      [0x1_0000 + (units[0] - 0xd800) * 0x400 + (units[1] - 0xdc00)] + Decoded(units[2..])
    else [units[0]] + Decoded(units[1..])
  }

  /** The encoding is unambiguous. */
  lemma {:induction false} DecodeUtf16(name: seq<Scalar>)
    ensures Decoded(Utf16(name)) == name
  {
    if name != [] {
      DecodeUtf16(name[1..]);
      var head, tail := UnitsOf(name[0]), Utf16(name[1..]);
      assert (head + tail)[|head|..] == tail;
    }
  }

  /** An accepted name has between one and 255 units, and no two accepted names
      share an encoding. */
  lemma EncodedFits(a: seq<Scalar>, b: seq<Scalar>)
    requires Encoded(a).Ok?
    ensures 1 <= |Encoded(a).value| <= NAME_MAX
    ensures Encoded(a) == Encoded(b) ==> a == b
  {
    DecodeUtf16(a);
    DecodeUtf16(b);
  }
}
