/** The response layer's decimal printer (internal/api/dto.go), which fills a 20-byte buffer
    from its right end. */
module ResponseText {
  import opened Sequences
  import opened Decimal

  const MIN_INT64: int := -0x8000_0000_0000_0000

  /** Go's int on a 64-bit platform. */
  type Int64 = n: int | MIN_INT64 <= n < 0x8000_0000_0000_0000

  /** Two's-complement negation: the minimum is its own negative. */
  function Negate(n: Int64): Int64 {
    if n == MIN_INT64 then n else -n
  }

  /** The text Itoa leaves in the buffer. */
  function ItoaText(n: Int64): string {
    if n == MIN_INT64 then "-"
    else if n < 0 then "-" + Print(-n)
    else Print(n)
  }

  /** An optional minus sign followed by at least one digit. */
  function ParseInt(s: string): Option<int> {
    if s != [] && AllDigits(s) then Some(Parse(s))
    else if |s| > 1 && s[0] == '-' && AllDigits(s[1..]) then Some(0 - Parse(s[1..]))
    else None
  }

  lemma NineteenDigits()
    ensures Pow10(19) == 10_000_000_000_000_000_000
  {
    assert Pow10(10) == 10_000_000_000;
    assert Pow10(15) == 1_000_000_000_000_000;
  }

  /** One turn of the loop moves the last digit into the buffer. */
  lemma PrintStep(n: nat, rest: string)
    requires n > 0
    ensures Print(n) + rest == (if n / 10 > 0 then Print(n / 10) else "") + ([Digit(n % 10)] + rest)
  {
    if n >= 10 {
      assert Print(n) == Print(n / 10) + [Digit(n % 10)];
    }
  }

  method Itoa(n0: Int64) returns (s: string)
    ensures s == ItoaText(n0)
  {
    if n0 == 0 {
      return "0";
    }
    var neg := n0 < 0;
    var n: Int64 := if neg then Negate(n0) else n0;
    var m: nat := if n < 0 then 0 else n;
    var buf := new char[20];
    var i := buf.Length;
    NineteenDigits();
    while n > 0
      invariant 1 <= i <= 20
      invariant n < Pow10(i - 1)
      invariant n0 == MIN_INT64 ==> n == n0 && i == 20
      invariant n0 != MIN_INT64 ==> Print(m) == (if n > 0 then Print(n) else "") + buf[i..]
      decreases n
    {
      PrintStep(n, buf[i..]);
      ghost var rest := buf[i..];
      i := i - 1;
      buf[i] := Digit(n % 10);
      assert buf[i..] == [Digit(n % 10)] + rest;
      n := n / 10;
    }
    ghost var digits := buf[i..];
    if neg {
      i := i - 1;
      buf[i] := '-';
      assert buf[i..] == "-" + digits;
      assert n0 == MIN_INT64 ==> digits == [] && buf[i..] == "-";
    }
    s := buf[i..];
  }

  /** Parsing the printed text gives the number back for every 64-bit integer except the
      minimum, whose text is a bare minus sign. */
  lemma ItoaRoundTrip(n: Int64)
    ensures ParseInt(ItoaText(n)) == Some(n) <==> n != MIN_INT64
    ensures n == MIN_INT64 ==> ParseInt(ItoaText(n)) == None
  {
    if n == MIN_INT64 {
      assert ItoaText(n)[0] == '-';
    } else if n < 0 {
      ParsePrint(-n);
      assert ItoaText(n)[0] == '-' && ItoaText(n)[1..] == Print(-n);
    } else {
      ParsePrint(n);
    }
  }

  /** The text is canonical: it fits the buffer and has no leading zero. */
  lemma {:induction false} PrintFits(n: nat, w: nat)
    requires 0 < w && n < Pow10(w)
    ensures |Print(n)| <= w
  {
    if n >= 10 {
      PrintFits(n / 10, w - 1);
    }
  }

  lemma ItoaCanonical(n: Int64)
    ensures 1 <= |ItoaText(n)| <= 20
    ensures ItoaText(n)[0] == '0' ==> n == 0 && ItoaText(n) == "0"
    ensures ItoaText(n)[0] == '-' <==> n < 0
    ensures n < 0 && n != MIN_INT64 ==> ItoaText(n)[1] != '0'
  {
    NineteenDigits();
    if n != MIN_INT64 {
      var m: nat := if n < 0 then -n else n;
      PrintFits(m, 19);
      PrintLeadingDigit(m);
      if n == 0 {
        assert Print(0) == [Digit(0)];
      }
    }
  }
}
