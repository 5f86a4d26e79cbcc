/** Hexadecimal quantities as go-ethereum's hexutil writes and reads them. */
module Hex {
  import opened Wrappers
  import opened Uint64

  function DigitChar(d: nat): (c: char)
    requires d < 16
    ensures DigitValue(c) == Some(d)
    ensures c == '0' <==> d == 0
  {
    "0123456789abcdef"[d]
  }

  function DigitValue(c: char): Option<nat> {
    if '0' <= c <= '9' then Some((c - '0') as nat)
    else if 'a' <= c <= 'f' then Some((c - 'a') as nat + 10)
    else if 'A' <= c <= 'F' then Some((c - 'A') as nat + 10)
    else None
  }

  /** n in base sixteen without leading zeros. */
  function Digits(n: nat): (s: string)
    ensures |s| > 0
  {
    if n < 16 then [DigitChar(n)] else Digits(n / 16) + [DigitChar(n % 16)]
  }

  function Value(s: string): Option<nat> {
    if s == "" then Some(0)
    else
      var init, last := Value(s[..|s| - 1]), DigitValue(s[|s| - 1]);
      if init.Some? && last.Some? then Some(16 * init.value + last.value) else None
  }

  function Encode(n: uint64): string {
    "0x" + Digits(n)
  }

  predicate HasPrefix(s: string) {
    |s| >= 2 && s[0] == '0' && (s[1] == 'x' || s[1] == 'X')
  }

  /** DecodeUint64: prefix, at least one digit, no leading zero, at most 64 bits. */
  function Decode(s: string): Option<uint64> {
    if !HasPrefix(s) || |s| == 2 || (|s| > 3 && s[2] == '0') then None
    else
      match Value(s[2..])
      case Some(n) => if n < TWO_64 then Some(n) else None
      case None => None
  }

  lemma {:induction false} ValueOfDigits(n: nat)
    ensures Value(Digits(n)) == Some(n)
    ensures Digits(n)[0] == '0' ==> n == 0
  {
    if n < 16 {
      assert Digits(n)[..0] == "";
      assert Value("") == Some(0);
    } else {
      ValueOfDigits(n / 16);
      var s := Digits(n);
      assert s[..|s| - 1] == Digits(n / 16);
    }
  }

  function Power16(k: nat): nat {
    if k == 0 then 1 else 16 * Power16(k - 1)
  }

  lemma {:induction false} DigitsAreFew(n: nat, k: nat)
    requires k > 0 && n < Power16(k)
    ensures |Digits(n)| <= k
  {
    if n < 16 {
    } else {
      assert Power16(1) == 16;
      assert n / 16 < Power16(k - 1);
      DigitsAreFew(n / 16, k - 1);
    }
  }

  lemma Power16Of16()
    ensures Power16(16) == TWO_64
  {
    assert Power16(4) == 0x1_0000;
    assert Power16(8) == 0x1_0000_0000;
    assert Power16(12) == 0x1_0000_0000_0000;
  }

  /** Reading back what was written, in at most eighteen characters. */
  lemma RoundTrip(n: uint64)
    ensures Decode(Encode(n)) == Some(n)
    ensures |Encode(n)| <= 18
  {
    ValueOfDigits(n);
    Power16Of16();
    DigitsAreFew(n, 16);
    var s := Encode(n);
    assert s[2..] == Digits(n);
    assert s[2] == Digits(n)[0];
    assert HasPrefix(s);
    assert n == 0 ==> |Digits(n)| == 1;
  }

  lemma {:induction false} ValueIsLarge(s: string)
    requires s != "" && s[0] != '0' && Value(s).Some?
    ensures Value(s).value >= Power16(|s| - 1)
  {
    if |s| == 1 {
      assert s[..0] == "";
      assert Value("") == Some(0);
    } else {
      ValueIsLarge(s[..|s| - 1]);
    }
  }

  lemma {:induction false} PowerGrows(j: nat, k: nat)
    requires j <= k
    ensures Power16(j) <= Power16(k)
  {
    if j == k {
    } else {
      PowerGrows(j, k - 1);
    }
  }

  /** More than sixteen digits never fit: in particular a block hash is not a quantity. */
  lemma LongIsNoQuantity(s: string)
    requires |s| > 18
    ensures Decode(s).None?
  {
    if HasPrefix(s) && s[2] != '0' && Value(s[2..]).Some? {
      ValueIsLarge(s[2..]);
      PowerGrows(16, |s| - 3);
      Power16Of16();
    }
  }

  /** How quantities look. */
  lemma Samples()
    ensures Encode(0) == "0x0" && Encode(10) == "0xa" && Encode(256) == "0x100"
    ensures Decode("0x0") == Some(0) && Decode("0xfF") == Some(255)
    ensures Decode("0x") == None && Decode("0x01") == None && Decode("ff") == None && Decode("0xg") == None
  {
    assert Digits(256) == Digits(16) + ['0'] && Digits(16) == Digits(1) + ['0'];
    assert "0xfF"[2..] == "fF" && "fF"[..1] == "f" && "f"[..0] == "";
    assert Value("f") == Some(15);
    assert Value("fF") == Some(255);
    assert "0x0"[2..] == "0" && "0"[..0] == "";
    assert "0xg"[2..] == "g" && "g"[..0] == "";
  }
}
