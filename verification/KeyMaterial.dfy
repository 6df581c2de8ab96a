/** Operator-supplied key material: hexadecimal, 32 bytes, not all zero. The
    bootstrap seed and a rotation's key_hex are held to the same rule. */
module KeyMaterial {
  import opened Wrappers
  import opened Aead
  import opened KeySets
  import opened KeyTables

  function HexDigit(c: char): (d: Option<int>)
    ensures d.Some? ==> 0 <= d.value < 16
  {
    if '0' <= c <= '9' then Some(c as int - '0' as int)
    else if 'a' <= c <= 'f' then Some(c as int - 'a' as int + 10)
    else if 'A' <= c <= 'F' then Some(c as int - 'A' as int + 10)
    else None
  }

  function HexDecode(s: string): (r: Option<seq<byte>>) {
    if s == "" then Some([])
    else if |s| == 1 || HexDigit(s[0]).None? || HexDigit(s[1]).None? then None
    else
      match HexDecode(s[2..])
      case None => None
      case Some(rest) => Some([(HexDigit(s[0]).value * 16 + HexDigit(s[1]).value) as byte] + rest)
  }

  datatype MaterialError = NotHex | WrongLength | AllZero

  function Material(hex: string): (r: Result<seq<byte>, MaterialError>) {
    match HexDecode(hex)
    case None => Err(NotHex)
    case Some(key) =>
      if |key| != KEY_SIZE then Err(WrongLength)
      else if AllZeroBytes(key) then Err(MaterialError.AllZero)
      else Ok(key)
  }

  function HexChar(d: int): (c: char)
    requires 0 <= d < 16
  {
    if d < 10 then (d + '0' as int) as char else (d - 10 + 'a' as int) as char
  }

  function HexEncode(key: seq<byte>): (s: string) {
    if key == [] then "" else [HexChar(key[0] as int / 16), HexChar(key[0] as int % 16)] + HexEncode(key[1..])
  }

  /** The value of a digit, whichever its case. */
  lemma HexDigitTable(c: char)
    ensures HexDigit(c) ==
            match c
              case '0' => Some(0)
              case '1' => Some(1)
              case '2' => Some(2)
              case '3' => Some(3)
              case '4' => Some(4)
              case '5' => Some(5)
              case '6' => Some(6)
              case '7' => Some(7)
              case '8' => Some(8)
              case '9' => Some(9)
              case 'a' => Some(10)
              case 'b' => Some(11)
              case 'c' => Some(12)
              case 'd' => Some(13)
              case 'e' => Some(14)
              case 'f' => Some(15)
              case 'A' => Some(10)
              case 'B' => Some(11)
              case 'C' => Some(12)
              case 'D' => Some(13)
              case 'E' => Some(14)
              case 'F' => Some(15)
              case _ => None
  {
  }

  /** Each byte is its two digits, the higher one first. */
  lemma {:induction false} HexDecodeAt(s: string, i: nat)
    requires HexDecode(s).Some? && i < |HexDecode(s).value|
    ensures 2 * i + 1 < |s| && HexDigit(s[2 * i]).Some? && HexDigit(s[2 * i + 1]).Some?
    ensures HexDecode(s).value[i] as int == HexDigit(s[2 * i]).value * 16 + HexDigit(s[2 * i + 1]).value
  {
    if i > 0 {
      HexDecodeAt(s[2..], i - 1);
      assert s[2..][2 * (i - 1)] == s[2 * i] && s[2..][2 * (i - 1) + 1] == s[2 * i + 1];
    }
  }

  lemma {:induction false} HexRoundTrip(key: seq<byte>)
    ensures HexDecode(HexEncode(key)) == Some(key)
  {
    if key != [] {
      HexRoundTrip(key[1..]);
      var s := HexEncode(key);
      assert s[2..] == HexEncode(key[1..]);
      assert key == [key[0]] + key[1..];
    }
  }

  /** Decoding succeeds exactly on an even number of hexadecimal digits. */
  lemma {:induction false} HexDecodesExactlyWhen(s: string)
    ensures HexDecode(s).Some? <==> |s| % 2 == 0 && forall i | 0 <= i < |s| :: HexDigit(s[i]).Some?
    ensures HexDecode(s).Some? ==> |HexDecode(s).value| * 2 == |s|
  {
    if |s| >= 2 {
      HexDecodesExactlyWhen(s[2..]);
      if HexDecode(s).Some? {
        forall i | 0 <= i < |s| ensures HexDigit(s[i]).Some? {
          assert i >= 2 ==> s[i] == s[2..][i - 2];
        }
      }
      if forall i | 0 <= i < |s| :: HexDigit(s[i]).Some? {
        assert forall i | 0 <= i < |s[2..]| :: s[2..][i] == s[i + 2];
      }
    }
  }

  /** A decoded key is all zero bytes exactly when every digit is '0'. */
  lemma {:induction false} ZeroExactlyWhen(s: string)
    requires HexDecode(s).Some?
    ensures AllZeroBytes(HexDecode(s).value) <==> forall i | 0 <= i < |s| :: s[i] == '0'
  {
    if s != "" {
      ZeroExactlyWhen(s[2..]);
      var rest := HexDecode(s[2..]).value;
      var key := HexDecode(s).value;
      assert key == [key[0]] + rest;
      assert AllZeroBytes(key) <==> key[0] == 0 && AllZeroBytes(rest) by {
        assert forall i | 0 <= i < |rest| :: rest[i] == key[i + 1];
      }
      assert (forall i | 0 <= i < |s| :: s[i] == '0') <==>
               s[0] == '0' && s[1] == '0' && forall i | 0 <= i < |s[2..]| :: s[2..][i] == '0' by {
        assert forall i | 0 <= i < |s[2..]| :: s[2..][i] == s[i + 2];
        assert forall i | 2 <= i < |s| :: s[i] == s[2..][i - 2];
      }
    }
  }

  /** What is accepted is exactly 64 hexadecimal digits, of either case, that are not
      all '0'; it yields usable key material, and every such key can be supplied. */
  lemma MaterialExactlyWhen(hex: string, key: seq<byte>)
    ensures Material(hex).Ok? <==>
              && |hex| == 2 * KEY_SIZE && (forall i | 0 <= i < |hex| :: HexDigit(hex[i]).Some?)
              && exists i :: 0 <= i < |hex| && hex[i] != '0'
    ensures Material(hex).Ok? ==> IsKeyMaterial(Material(hex).value) && HexDecode(hex) == Some(Material(hex).value)
    ensures Material(hex) == Err(NotHex) <==> |hex| % 2 != 0 || exists i :: 0 <= i < |hex| && HexDigit(hex[i]).None?
    ensures Material(hex) == Err(WrongLength) <==>
              |hex| % 2 == 0 && |hex| != 64 && forall i | 0 <= i < |hex| :: HexDigit(hex[i]).Some?
    ensures Material(hex) == Err(MaterialError.AllZero) <==> |hex| == 64 && forall i | 0 <= i < |hex| :: hex[i] == '0'
    ensures IsKeyMaterial(key) ==> Material(HexEncode(key)) == Ok(key)
  {
    HexDecodesExactlyWhen(hex);
    if HexDecode(hex).Some? {
      ZeroExactlyWhen(hex);
    }
    HexRoundTrip(key);
  }
}
