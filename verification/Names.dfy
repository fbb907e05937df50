/**
 Device names with a numeric suffix, as three pieces of code read them: the kernel's backward scan,
 the daemon's backward scan, and the model's regular expression.
 */
module Names {
  import opened Words

  predicate IsDigit(c: char) { '0' <= c <= '9' }

  predicate IsIdentStart(c: char) { 'A' <= c <= 'Z' || 'a' <= c <= 'z' || c == '_' }

  predicate IsIdent(c: char) { IsIdentStart(c) || IsDigit(c) }

  /** The character class of model names: letters, digits, dot, underscore, colon and hyphen. */
  predicate IsNameChar(c: char) { IsIdent(c) || c == '.' || c == ':' || c == '-' }

  predicate AllDigits(s: string) { forall i :: 0 <= i < |s| ==> IsDigit(s[i]) }

  predicate IsName(s: string) { s != [] && forall i :: 0 <= i < |s| ==> IsNameChar(s[i]) }

  predicate IsBase(s: string) {
    s != [] && IsIdentStart(s[0]) && forall i :: 0 <= i < |s| ==> IsIdent(s[i])
  }

  function DigitValue(c: char): nat
    requires IsDigit(c)
  {
    c as int - '0' as int
  }

  function DigitChar(d: nat): (c: char)
    requires d < 10
    ensures IsDigit(c) && DigitValue(c) == d
  {
    ('0' as int + d) as char
  }

  /** int(s, 10) and kstrtouint on a run of digits. */
  function ParseDec(s: string): nat
    requires AllDigits(s)
  {
    if s == [] then 0 else ParseDec(s[..|s| - 1]) * 10 + DigitValue(s[|s| - 1])
  }

  /** The canonical decimal rendering, without leading zeros. */
  function ToDec(n: nat): (s: string)
    ensures AllDigits(s) && s != []
  {
    if n < 10 then [DigitChar(n)] else ToDec(n / 10) + [DigitChar(n % 10)]
  }

  lemma {:induction false} ParseOfToDec(n: nat)
    ensures ParseDec(ToDec(n)) == n
  {
    var s := ToDec(n);
    if n >= 10 {
      ParseOfToDec(n / 10);
      assert s[..|s| - 1] == ToDec(n / 10);
    } else {
      assert s[..|s| - 1] == [];
    }
  }

  /** Where the longest run of digits at the end of a name begins. */
  function SplitPoint(s: string): (k: nat)
    ensures k <= |s| && AllDigits(s[k..])
    ensures k > 0 ==> !IsDigit(s[k - 1])
  {
    if s == [] || !IsDigit(s[|s| - 1]) then |s|
    else
      var k := SplitPoint(s[..|s| - 1]);
      assert s[k..] == s[..|s| - 1][k..] + [s[|s| - 1]];
      k
  }

  lemma SplitPointIsUnique(s: string, k: nat)
    requires 0 < k <= |s| && AllDigits(s[k..]) && !IsDigit(s[k - 1])
    ensures SplitPoint(s) == k
  {
    SuffixDigits(s, k);
    SuffixDigits(s, SplitPoint(s));
  }

  lemma SuffixDigits(s: string, k: nat)
    requires k <= |s| && AllDigits(s[k..])
    ensures forall i :: k <= i < |s| ==> IsDigit(s[i])
  {
    forall i | k <= i < |s|
      ensures IsDigit(s[i])
    {
      assert s[k..][i - k] == s[i];
    }
  }

  /** The scan loop of both parse_tty_name functions. */
  method ScanSuffix(s: string) returns (split: nat)
    ensures split == SplitPoint(s)
  {
    split := |s|;
    while split > 0 && IsDigit(s[split - 1])
      invariant split <= |s| && AllDigits(s[split..])
    {
      assert s[split - 1..] == [s[split - 1]] + s[split..];
      split := split - 1;
    }
    SuffixDigits(s, split);
    SuffixDigits(s, SplitPoint(s));
  }

  datatype Parsed = Parsed(base: string, index: nat) | Invalid | OutOfRange

  /** The kernel's parse_tty_name with its 32-byte base buffer and unsigned index. */
  function KernelParseTty(name: string): Parsed {
    var split := SplitPoint(name);
    if name == [] || split == |name| || split == 0 || split >= 32 then Invalid
    else
      var index := ParseDec(name[split..]);
      if index >= U32 then OutOfRange else Parsed(name[..split], index)
  }

  /** The daemon's parse_tty_name. */
  function DaemonParseTty(value: string): Parsed {
    var split := SplitPoint(value);
    if value == [] || split == |value| || split == 0 || !IsBase(value[..split]) then Invalid
    else Parsed(value[..split], ParseDec(value[split..]))
  }

  /** The regular expression's lazy group: the shortest identifier followed by digits only. */
  predicate RegexSplit(value: string, k: nat) {
    && 0 < k < |value| && IsBase(value[..k]) && AllDigits(value[k..])
    && forall j :: 0 < j < k ==> !(IsBase(value[..j]) && AllDigits(value[j..]))
  }

  /** The lazy match ends exactly where the longest digit suffix begins. */
  lemma RegexSplitIsSplitPoint(value: string, k: nat)
    requires RegexSplit(value, k)
    ensures k == SplitPoint(value)
  {
    var p := SplitPoint(value);
    SuffixDigits(value, k);
    SuffixDigits(value, p);
    assert value[..k][0] == value[0];
    assert p <= k;
    if p > 0 {
      assert forall i :: 0 <= i < p ==> value[..p][i] == value[..k][i];
    }
  }

  /** What expect_runtime_uart_port_name accepts. */
  predicate IsPortName(value: string) {
    && IsName(value)
    && var k := SplitPoint(value);
       0 < k < |value| && IsBase(value[..k])
       && value == value[..k] + ToDec(ParseDec(value[k..]))
  }

  /** The model reads the name through the regular expression: same verdict, same two parts. */
  lemma PortNameByRegex(value: string)
    ensures IsPortName(value) <==>
      exists k: nat :: IsName(value) && RegexSplit(value, k) && value == value[..k] + ToDec(ParseDec(value[k..]))
  {
    var k := SplitPoint(value);
    if 0 < k < |value| && IsBase(value[..k]) {
      forall j | 0 < j < k
        ensures !AllDigits(value[j..])
      {
        assert !IsDigit(value[k - 1]);
        assert value[j..][k - 1 - j] == value[k - 1];
      }
      assert RegexSplit(value, k);
    }
    forall k': nat | RegexSplit(value, k')
      ensures k' == k
    {
      RegexSplitIsSplitPoint(value, k');
    }
  }

  /**
   Every port name the model accepts splits into the same base and index in the daemon and in the
   kernel; the kernel alone refuses bases of 32 characters and indexes of 2^32.
   */
  lemma PortNameSplitsAgree(value: string)
    requires IsPortName(value)
    ensures DaemonParseTty(value).Parsed?
    ensures
      var d := DaemonParseTty(value);
      KernelParseTty(value) == (if |d.base| >= 32 then Invalid else if d.index >= U32 then OutOfRange else d)
  {
  }

  /** The canonical suffix makes the split injective: no two accepted names share base and index. */
  lemma PortNamesAreInjective(v: string, w: string)
    requires IsPortName(v) && IsPortName(w) && DaemonParseTty(v) == DaemonParseTty(w)
    ensures v == w
  {
  }

  // ---- Bus names ----

  predicate IsI2cBusName(s: string) {
    |s| > 4 && s[..4] == "i2c-" && AllDigits(s[4..]) && s == "i2c-" + ToDec(ParseDec(s[4..]))
  }

  predicate IsSpiBusName(s: string) {
    |s| > 3 && s[..3] == "spi" && AllDigits(s[3..]) && s == "spi" + ToDec(ParseDec(s[3..]))
  }

  /** parse_i2c_name: the adapter number, or a negative status. */
  function KernelParseI2c(name: string): Parsed {
    if |name| < 4 || name[..4] != "i2c-" || |name| == 4 || !AllDigits(name[4..]) then Invalid
    else if ParseDec(name[4..]) >= U32 then OutOfRange
    else Parsed("i2c-", ParseDec(name[4..]))
  }

  function KernelParseSpi(name: string): Parsed {
    var split := SplitPoint(name);
    if name == [] || split == |name| || split == 0 then Invalid
    else if ParseDec(name[split..]) >= U32 then OutOfRange
    else Parsed(name[..split], ParseDec(name[split..]))
  }

  /** The kernel reads from an accepted bus name the number the model meant. */
  lemma BusNamesParse(s: string)
    ensures IsI2cBusName(s) ==>
      KernelParseI2c(s) == if ParseDec(s[4..]) < U32 then Parsed("i2c-", ParseDec(s[4..])) else OutOfRange
    ensures IsSpiBusName(s) ==>
      KernelParseSpi(s) == if ParseDec(s[3..]) < U32 then Parsed("spi", ParseDec(s[3..])) else OutOfRange
  {
    if IsSpiBusName(s) {
      assert s[..3][2] == 'i';
      SplitPointIsUnique(s, 3);
    }
  }
}
