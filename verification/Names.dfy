/** Client names: C strings in fixed 32-byte fields. */
module Names {
  import opened Bytes
  import opened Framing

  /** What fits a name field together with its terminator. */
  type Name = n: seq<byte> | |n| < NAME_SIZE && 0 !in n

  /** The bytes before the first NUL. */
  function CString(s: seq<byte>): (n: seq<byte>)
    ensures |n| <= |s| && n <= s && 0 !in n && (|n| < |s| ==> s[|n|] == 0)
  {
    if s == [] || s[0] == 0 then [] else [s[0]] + CString(s[1..])
  }

  /** The name in a 32-byte field whose last byte the server forces to NUL. */
  function NameIn(field: seq<byte>): Name
    requires NAME_SIZE <= |field|
  {
    CString(field[..NAME_SIZE - 1])
  }

  /** It is what stands before the first NUL, at most 31 bytes. */
  lemma NameInExact(field: seq<byte>)
    requires 32 <= |field|
    ensures var n := NameIn(field);
            n <= field && |n| <= 31 && 0 !in n && (|n| < 31 ==> field[|n|] == 0)
  {
    assert field[..31] <= field;
  }

  /** strncpy() into a zeroed field. */
  function Field(name: Name): (f: seq<byte>)
    ensures |f| == NAME_SIZE
  {
    name + Zeros(NAME_SIZE - |name|)
  }

  /** A field carries any name to the other side, whatever follows it. */
  lemma NameRoundTrip(name: Name, tail: seq<byte>)
    ensures NameIn(Field(name) + tail) == name
  {
    var s := (Field(name) + tail)[..NAME_SIZE - 1];
    assert s == name + Zeros(NAME_SIZE - 1 - |name|);
    CStringStops(name, Zeros(NAME_SIZE - 1 - |name|));
  }

  lemma {:induction false} CStringStops(name: seq<byte>, zeros: seq<byte>)
    requires 0 !in name && (zeros == [] || zeros[0] == 0)
    ensures CString(name + zeros) == name
  {
    if name == [] {
      assert name + zeros == zeros;
    } else {
      assert (name + zeros)[1..] == name[1..] + zeros;
      CStringStops(name[1..], zeros);
    }
  }
}
