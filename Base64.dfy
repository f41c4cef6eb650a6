/** The base64 alphabet with padding (section 4 of RFC 4648), as Python's `base64.b64encode`
    writes it, and CPython's non-strict `binascii.a2b_base64`, which `base64.b64decode` runs. */
module Base64 {
  import opened Wrappers
  import opened Bytes

  /** The character for a 6-bit value: A-Z, a-z, 0-9, '+', '/'. */
  function AlphabetChar(v: int): (c: char)
    requires 0 <= v < 64
    ensures c as int < 128 && c != '='
  {
    if v < 26 then ('A' as int + v) as char
    else if v < 52 then ('a' as int + (v - 26)) as char
    else if v < 62 then ('0' as int + (v - 52)) as char
    else if v == 62 then '+'
    else '/'
  }

  /** The decoding table: the 6-bit value of an alphabet character, 64 for every other character. */
  function SextetOf(c: char): (v: int)
    ensures 0 <= v <= 64
  {
    if 'A' <= c <= 'Z' then c as int - 'A' as int
    else if 'a' <= c <= 'z' then c as int - 'a' as int + 26
    else if '0' <= c <= '9' then c as int - '0' as int + 52
    else if c == '+' then 62
    else if c == '/' then 63
    else 64
  }

  lemma SextetOfAlphabetChar(v: int)
    requires 0 <= v < 64
    ensures SextetOf(AlphabetChar(v)) == v
  {
  }

  /** Three octets as four characters. */
  function EncodeBlock(b0: byte, b1: byte, b2: byte): string
  {
    [AlphabetChar(b0 / 4), AlphabetChar((b0 % 4) * 16 + b1 / 16),
     AlphabetChar((b1 % 16) * 4 + b2 / 64), AlphabetChar(b2 % 64)]
  }

  /** `base64.b64encode(data).decode()`: four characters per three octets, the last group padded with '='. */
  function Encode(data: seq<byte>): (s: string)
    ensures |s| == (|data| + 2) / 3 * 4
    decreases |data|
  {
    if |data| >= 3 then EncodeBlock(data[0], data[1], data[2]) + Encode(data[3..])
    else if |data| == 2 then
      [AlphabetChar(data[0] / 4), AlphabetChar((data[0] % 4) * 16 + data[1] / 16),
       AlphabetChar((data[1] % 16) * 4), '=']
    else if |data| == 1 then
      [AlphabetChar(data[0] / 4), AlphabetChar((data[0] % 4) * 16), '=', '=']
    else []
  }

  /** The encoder writes only ASCII, and '=' only as padding. */
  lemma {:induction false} EncodeIsAscii(data: seq<byte>)
    ensures IsAscii(Encode(data))
    decreases |data|
  {
    if |data| >= 3 {
      EncodeIsAscii(data[3..]);
      var e := Encode(data);
      var head := EncodeBlock(data[0], data[1], data[2]);
      assert e == head + Encode(data[3..]);
      forall i | 0 <= i < |e| ensures e[i] as int < 128 {
        if i >= 4 { assert e[i] == Encode(data[3..])[i - 4]; }
      }
    }
  }

  /** Whether the decoding loop has room for `left` in position `quad` of a group of four. */
  predicate Pending(quad: nat, left: int)
  {
    quad < 4 && 0 <= left
    && (quad == 1 ==> left < 64) && (quad == 2 ==> left < 16) && (quad == 3 ==> left < 4)
  }

  /** The loop of CPython's non-strict `a2b_base64`, one character at a time. `quad` is the position
      in the current group, `left` the bits carried over, `pads` the '=' seen since the last data
      character. Characters outside the alphabet are skipped; '=' ends decoding once it completes a
      group; after the last character, a partial group is an error. */
  function A2b(s: string, quad: nat, left: int, pads: nat, acc: seq<byte>): Option<seq<byte>>
    requires Pending(quad, left)
    decreases |s|
  {
    if s == [] then
      if quad == 0 then Some(acc) else None
    else if s[0] == '=' then
      if quad >= 2 && quad + pads + 1 >= 4 then Some(acc)
      else A2b(s[1..], quad, left, if quad >= 2 then pads + 1 else pads, acc)
    else
      var v := SextetOf(s[0]);
      if v >= 64 then A2b(s[1..], quad, left, pads, acc)
      else if quad == 0 then A2b(s[1..], 1, v, 0, acc)
      else if quad == 1 then A2b(s[1..], 2, v % 16, 0, acc + [left * 4 + v / 16])
      else if quad == 2 then A2b(s[1..], 3, v % 4, 0, acc + [left * 16 + v / 4])
      else A2b(s[1..], 0, 0, 0, acc + [left * 64 + v])
  }

  /** `base64.b64decode(s)`: a string with a non-ASCII character is refused before decoding. */
  function Decode(s: string): Option<seq<byte>>
  {
    if !IsAscii(s) then None else A2b(s, 0, 0, 0, [])
  }

  /** One encoded group of four is decoded back to its three octets, whatever follows it. */
  lemma BlockRoundTrip(b0: byte, b1: byte, b2: byte, rest: string, left: int, pads: nat, acc: seq<byte>)
    requires Pending(0, left)
    ensures A2b(EncodeBlock(b0, b1, b2) + rest, 0, left, pads, acc)
         == A2b(rest, 0, 0, 0, acc + [b0, b1, b2])
  {
    var s := EncodeBlock(b0, b1, b2) + rest;
    var v0, v1, v2, v3 := b0 / 4, (b0 % 4) * 16 + b1 / 16, (b1 % 16) * 4 + b2 / 64, b2 % 64;
    SextetOfAlphabetChar(v0); SextetOfAlphabetChar(v1);
    SextetOfAlphabetChar(v2); SextetOfAlphabetChar(v3);
    assert s[1..][1..][1..][1..] == rest;
    assert v0 * 4 + v1 / 16 == b0;
    assert (v1 % 16) * 16 + v2 / 4 == b1;
    assert (v2 % 4) * 64 + v3 == b2;
    calc {
      A2b(s, 0, left, pads, acc);
      A2b(s[1..], 1, v0, 0, acc);
      A2b(s[1..][1..], 2, v1 % 16, 0, acc + [b0]);
      A2b(s[1..][1..][1..], 3, v2 % 4, 0, acc + [b0] + [b1]);
      A2b(rest, 0, 0, 0, acc + [b0] + [b1] + [b2]);
      { assert acc + [b0] + [b1] + [b2] == acc + [b0, b1, b2]; }
      A2b(rest, 0, 0, 0, acc + [b0, b1, b2]);
    }
  }

  /** The last group for two remaining octets: three data characters and one '='. */
  lemma TailTwoRoundTrip(b0: byte, b1: byte, left: int, pads: nat, acc: seq<byte>)
    requires Pending(0, left)
    ensures A2b(Encode([b0, b1]), 0, left, pads, acc) == Some(acc + [b0, b1])
  {
    var s := Encode([b0, b1]);
    var v0, v1, v2 := b0 / 4, (b0 % 4) * 16 + b1 / 16, (b1 % 16) * 4;
    SextetOfAlphabetChar(v0); SextetOfAlphabetChar(v1); SextetOfAlphabetChar(v2);
    assert v0 * 4 + v1 / 16 == b0;
    assert (v1 % 16) * 16 + v2 / 4 == b1;
    assert s[1..][1..][1..] == ['='];
    calc {
      A2b(s, 0, left, pads, acc);
      A2b(s[1..], 1, v0, 0, acc);
      A2b(s[1..][1..], 2, v1 % 16, 0, acc + [b0]);
      A2b(s[1..][1..][1..], 3, v2 % 4, 0, acc + [b0] + [b1]);
      { assert acc + [b0] + [b1] == acc + [b0, b1]; }
      Some(acc + [b0, b1]);
    }
  }

  /** The last group for one remaining octet: two data characters and "==". */
  lemma TailOneRoundTrip(b0: byte, left: int, pads: nat, acc: seq<byte>)
    requires Pending(0, left)
    ensures A2b(Encode([b0]), 0, left, pads, acc) == Some(acc + [b0])
  {
    var s := Encode([b0]);
    var v0, v1 := b0 / 4, (b0 % 4) * 16;
    SextetOfAlphabetChar(v0); SextetOfAlphabetChar(v1);
    assert v0 * 4 + v1 / 16 == b0;
    assert s[1..][1..] == ['=', '='];
    calc {
      A2b(s, 0, left, pads, acc);
      A2b(s[1..], 1, v0, 0, acc);
      A2b(s[1..][1..], 2, v1 % 16, 0, acc + [b0]);
      A2b(s[1..][1..][1..], 2, v1 % 16, 1, acc + [b0]);
      Some(acc + [b0]);
    }
  }

  lemma {:induction false} A2bEncode(data: seq<byte>, left: int, pads: nat, acc: seq<byte>)
    requires Pending(0, left)
    ensures A2b(Encode(data), 0, left, pads, acc) == Some(acc + data)
    decreases |data|
  {
    if |data| >= 3 {
      BlockRoundTrip(data[0], data[1], data[2], Encode(data[3..]), left, pads, acc);
      A2bEncode(data[3..], 0, 0, acc + [data[0], data[1], data[2]]);
      assert acc + [data[0], data[1], data[2]] + data[3..] == acc + data;
    } else if |data| == 2 {
      assert data == [data[0], data[1]];
      TailTwoRoundTrip(data[0], data[1], left, pads, acc);
    } else if |data| == 1 {
      assert data == [data[0]];
      TailOneRoundTrip(data[0], left, pads, acc);
    } else {
      assert acc + data == acc;
    }
  }

  /** Decoding what the encoder wrote gives back the octets. */
  lemma DecodeEncode(data: seq<byte>)
    ensures Decode(Encode(data)) == Some(data)
  {
    EncodeIsAscii(data);
    A2bEncode(data, 0, 0, []);
    assert [] + data == data;
  }

  /** Every character is from the alphabet: no '=' and nothing the decoder skips. */
  predicate DataOnly(s: string)
  {
    forall i :: 0 <= i < |s| ==> SextetOf(s[i]) < 64
  }

  /** Where the decoding loop stands: position in the group, carried bits, pads, octets so far. */
  datatype State = State(quad: nat, left: int, pads: nat, acc: seq<byte>)

  /** The loop's state after a run of alphabet characters. */
  function AfterData(d: string, quad: nat, left: int, pads: nat, acc: seq<byte>): (r: State)
    requires Pending(quad, left) && DataOnly(d)
    ensures Pending(r.quad, r.left) && r.quad == (quad + |d|) % 4 && (d != [] ==> r.pads == 0)
    decreases |d|
  {
    if d == [] then State(quad, left, pads, acc)
    else
      var v := SextetOf(d[0]);
      assert DataOnly(d[1..]) by {
        forall i | 0 <= i < |d[1..]| ensures SextetOf(d[1..][i]) < 64 { assert d[1..][i] == d[i + 1]; }
      }
      if quad == 0 then AfterData(d[1..], 1, v, 0, acc)
      else if quad == 1 then AfterData(d[1..], 2, v % 16, 0, acc + [left * 4 + v / 16])
      else if quad == 2 then AfterData(d[1..], 3, v % 4, 0, acc + [left * 16 + v / 4])
      else AfterData(d[1..], 0, 0, 0, acc + [left * 64 + v])
  }

  /** A run of alphabet characters only moves the loop's state on; what follows is decoded from there. */
  lemma {:induction false} A2bAfterData(d: string, rest: string, quad: nat, left: int, pads: nat, acc: seq<byte>)
    requires Pending(quad, left) && DataOnly(d)
    ensures var st := AfterData(d, quad, left, pads, acc);
      A2b(d + rest, quad, left, pads, acc) == A2b(rest, st.quad, st.left, st.pads, st.acc)
    decreases |d|
  {
    if d == [] {
      assert d + rest == rest;
    } else {
      var v := SextetOf(d[0]);
      assert (d + rest)[0] == d[0] && (d + rest)[1..] == d[1..] + rest;
      assert DataOnly(d[1..]) by {
        forall i | 0 <= i < |d[1..]| ensures SextetOf(d[1..][i]) < 64 { assert d[1..][i] == d[i + 1]; }
      }
      if quad == 0 { A2bAfterData(d[1..], rest, 1, v, 0, acc); }
      else if quad == 1 { A2bAfterData(d[1..], rest, 2, v % 16, 0, acc + [left * 4 + v / 16]); }
      else if quad == 2 { A2bAfterData(d[1..], rest, 3, v % 4, 0, acc + [left * 16 + v / 4]); }
      else { A2bAfterData(d[1..], rest, 0, 0, 0, acc + [left * 64 + v]); }
    }
  }

  /** A character outside the alphabet, other than '=', is skipped wherever it stands. */
  lemma {:induction false} A2bSkips(a: string, c: char, b: string, quad: nat, left: int, pads: nat, acc: seq<byte>)
    requires Pending(quad, left) && SextetOf(c) == 64 && c != '='
    ensures A2b(a + [c] + b, quad, left, pads, acc) == A2b(a + b, quad, left, pads, acc)
    decreases |a|
  {
    if a == [] {
      assert (a + [c] + b)[0] == c && (a + [c] + b)[1..] == b && a + b == b;
    } else {
      var x := a[0];
      assert (a + [c] + b)[0] == x && (a + b)[0] == x;
      assert (a + [c] + b)[1..] == a[1..] + [c] + b && (a + b)[1..] == a[1..] + b;
      if x == '=' {
        if !(quad >= 2 && quad + pads + 1 >= 4) {
          A2bSkips(a[1..], c, b, quad, left, if quad >= 2 then pads + 1 else pads, acc);
        }
      } else {
        var v := SextetOf(x);
        if v >= 64 { A2bSkips(a[1..], c, b, quad, left, pads, acc); }
        else if quad == 0 { A2bSkips(a[1..], c, b, 1, v, 0, acc); }
        else if quad == 1 { A2bSkips(a[1..], c, b, 2, v % 16, 0, acc + [left * 4 + v / 16]); }
        else if quad == 2 { A2bSkips(a[1..], c, b, 3, v % 4, 0, acc + [left * 16 + v / 4]); }
        else { A2bSkips(a[1..], c, b, 0, 0, 0, acc + [left * 64 + v]); }
      }
    }
  }

  lemma AsciiSplice(a: string, c: char, b: string)
    requires c as int < 128
    ensures IsAscii(a + [c] + b) <==> IsAscii(a + b)
  {
    var s, t := a + [c] + b, a + b;
    if IsAscii(t) {
      forall i | 0 <= i < |s| ensures s[i] as int < 128 {
        if i < |a| { assert s[i] == t[i]; } else if i > |a| { assert s[i] == t[i - 1]; }
      }
    }
    if IsAscii(s) {
      forall i | 0 <= i < |t| ensures t[i] as int < 128 {
        if i < |a| { assert t[i] == s[i]; } else { assert t[i] == s[i + 1]; }
      }
    }
  }

  /** `b64decode` refuses text with a non-ASCII character; a run of alphabet characters decodes
      exactly when its length is a multiple of four; a group holding a single data character
      fails whatever padding follows it; and a two-character group with a single '=' is incomplete. */
  lemma DecodeRejects(s: string, d: string, pads: nat)
    ensures !IsAscii(s) ==> Decode(s) == None
    ensures DataOnly(d) ==> (Decode(d).Some? <==> |d| % 4 == 0)
    ensures DataOnly(d) && |d| % 4 == 1 ==> Decode(d + seq(pads, _ => '=')) == None
    ensures DataOnly(d) && |d| % 4 == 2 ==> Decode(d + "=") == None
  {
    if DataOnly(d) {
      assert IsAscii(d) by {
        forall i | 0 <= i < |d| ensures d[i] as int < 128 { assert SextetOf(d[i]) < 64; }
      }
      var st := AfterData(d, 0, 0, 0, []);
      A2bAfterData(d, [], 0, 0, 0, []);
      assert d + [] == d;
      var tail := seq(pads, _ => '=');
      assert IsAscii(d + tail) by {
        forall i | 0 <= i < |d + tail| ensures (d + tail)[i] as int < 128 {
          if i < |d| { assert (d + tail)[i] == d[i]; } else { assert (d + tail)[i] == '='; }
        }
      }
      if |d| % 4 == 1 {
        A2bAfterData(d, tail, 0, 0, 0, []);
        PadsAfterOne(tail, st.left, st.pads, st.acc);
      }
      if |d| % 4 == 2 {
        A2bAfterData(d, "=", 0, 0, 0, []);
        assert IsAscii(d + "=") by {
          forall i | 0 <= i < |d + "="| ensures (d + "=")[i] as int < 128 {
            if i < |d| { assert (d + "=")[i] == d[i]; }
          }
        }
        assert d != [];
        assert "="[1..] == [];
      }
    }
  }

  /** In the second position of a group, '=' counts for nothing and the group stays incomplete. */
  lemma {:induction false} PadsAfterOne(tail: string, left: int, pads: nat, acc: seq<byte>)
    requires Pending(1, left) && forall i :: 0 <= i < |tail| ==> tail[i] == '='
    ensures A2b(tail, 1, left, pads, acc) == None
    decreases |tail|
  {
    if tail != [] {
      PadsAfterOne(tail[1..], left, pads, acc);
    }
  }

  /** The non-strict decoder skips any character outside the alphabet other than '=', and stops at
      the '=' that completes a group, ignoring everything after it. */
  lemma DecodeLenient(a: string, c: char, b: string, d: string, rest: string)
    requires c as int < 128 && SextetOf(c) == 64 && c != '='
    ensures Decode(a + [c] + b) == Decode(a + b)
    ensures DataOnly(d) && |d| % 4 == 2 && IsAscii(rest) ==> Decode(d + "==" + rest) == Decode(d + "==")
    ensures DataOnly(d) && |d| % 4 == 3 && IsAscii(rest) ==> Decode(d + "=" + rest) == Decode(d + "=")
  {
    AsciiSplice(a, c, b);
    A2bSkips(a, c, b, 0, 0, 0, []);
    if DataOnly(d) && IsAscii(rest) && (|d| % 4 == 2 || |d| % 4 == 3) {
      var pad := if |d| % 4 == 2 then "==" else "=";
      var st := AfterData(d, 0, 0, 0, []);
      assert d + pad + rest == d + (pad + rest);
      A2bAfterData(d, pad + rest, 0, 0, 0, []);
      A2bAfterData(d, pad, 0, 0, 0, []);
      assert d != [] && st.pads == 0;
      assert (pad + rest)[0] == '=' && pad[0] == '=';
      if |d| % 4 == 2 {
        assert (pad + rest)[1..][0] == '=' && pad[1..][0] == '=';
      }
      assert IsAscii(d + pad + rest) && IsAscii(d + pad) by {
        assert IsAscii(d) by {
          forall i | 0 <= i < |d| ensures d[i] as int < 128 { assert SextetOf(d[i]) < 64; }
        }
        forall i | 0 <= i < |d + pad + rest| ensures (d + pad + rest)[i] as int < 128 {
          if i < |d| { assert (d + pad + rest)[i] == d[i]; }
          else if i < |d| + |pad| { assert (d + pad + rest)[i] == '='; }
          else { assert (d + pad + rest)[i] == rest[i - |d| - |pad|]; }
        }
        forall i | 0 <= i < |d + pad| ensures (d + pad)[i] as int < 128 {
          if i < |d| { assert (d + pad)[i] == d[i]; }
        }
      }
    }
  }

  /** A few concrete texts: a lone data character, a group cut short by its pad, a non-ASCII
      character, a skipped space and a group after the padding. */
  lemma DecodeExamples()
    ensures Decode("Q") == None
    ensures Decode("QQ=") == None
    ensures Decode("Qé==") == None
    ensures Decode("QQ==") == Some([65])
    ensures Decode("Q Q==") == Some([65])
    ensures Decode("QQ==QUJD") == Some([65])
  {
    assert "Q"[1..] == [];
    assert "QQ="[1..][1..][1..] == [];
    assert "Qé=="[1] as int >= 128;
    var s := "QQ==";
    assert SextetOf('Q') == 16;
    assert s[1..][1..] == "==";
    assert s[1..][0] == 'Q';
    assert A2b(s, 0, 0, 0, []) == A2b(s[1..], 1, 16, 0, []);
    assert [] + [16 * 4 + 16 / 16] == [65];
    assert A2b(s[1..], 1, 16, 0, []) == A2b(s[1..][1..], 2, 0, 0, [65]);
    assert "Q Q=="[1..][1..][1..][1..] == "=";
    assert "QQ==QUJD"[1..][1..][1..][0] == '=';
  }
}
