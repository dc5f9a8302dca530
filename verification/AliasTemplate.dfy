/** The template language of aliases: its substitutions, how they are read, and what each stands for. */
module AliasTemplate {
  import opened Common
  import opened DecimalText
  import opened AliasOffsets

  datatype Piece =
    | Literal(c: char)            // any character but '$'
    | All                         // $*
    | Word(d: nat)                // $d
    | Only(a: int)                // ${a}
    | UpTo(b: int)                // ${-b}
    | From(a: int)                // ${a-}
    | Between(a: int, b: int)     // ${a-b}
    | Dropped                     // anything else that starts with '$'

  // ---------- reading ----------

  predicate IsSpace(c: char) {
    c == ' ' || '\t' <= c <= '\r'
  }

  function SkipSpace(s: string, i: nat): (k: nat)
    requires i <= |s|
    ensures i <= k <= |s|
    decreases |s| - i
  {
    if i < |s| && IsSpace(s[i]) then SkipSpace(s, i + 1) else i
  }

  /** What sscanf's %d reads at `i`, and where it stops. */
  function ScanInt(s: string, i: nat): (r: Option<(int, nat)>)
    requires i <= |s|
    ensures r.Some? ==> i < r.value.1 <= |s|
  {
    var k := SkipSpace(s, i);
    var d := if k < |s| && (s[k] == '-' || s[k] == '+') then k + 1 else k;
    var e := DigitsEnd(s, d);
    if e == d then None
    else Some((if s[k] == '-' then -(ValueOf(s[d..e]) as int) else ValueOf(s[d..e]), e))
  }

  /** sscanf(s + i, "{%d-%d}", &a, &b) when it assigns both. */
  function ScanPair(s: string, i: nat): Option<(int, int)>
    requires i < |s| && s[i] == '{'
  {
    match ScanInt(s, i + 1)
    case None => None
    case Some((a, k)) =>
      if k == |s| || s[k] != '-' then None
      else match ScanInt(s, k + 1)
        case None => None
        case Some((b, _)) => Some((a, b))
  }

  /** sscanf(s + i, "{%d%c", &b, &symbol) when it assigns both. */
  function ScanSymbol(s: string, i: nat): Option<(int, char)>
    requires i < |s| && s[i] == '{'
  {
    match ScanInt(s, i + 1)
    case None => None
    case Some((b, k)) => if k == |s| then None else Some((b, s[k]))
  }

  function SkipToBrace(s: string, i: nat): (k: nat)
    requires i <= |s|
    ensures i <= k <= |s| && (k < |s| ==> s[k] == '}')
    decreases |s| - i
  {
    if i < |s| && s[i] != '}' then SkipToBrace(s, i + 1) else i
  }

  function BracePiece(s: string, i: nat): Piece
    requires i < |s| && s[i] == '{'
  {
    match ScanPair(s, i)
    case Some((a, b)) => Between(a, b)
    case None =>
      match ScanSymbol(s, i)
      case None => Dropped
      case Some((b, symbol)) =>
        if symbol == '}' then (if b < 0 then UpTo(-b) else Only(b))
        else if symbol == '-' then From(b)
        else Dropped
  }

  /** The piece that starts at `i`. */
  function PieceAt(s: string, i: nat): Piece
    requires i < |s|
  {
    if s[i] != '$' then Literal(s[i])
    else if i + 1 == |s| then Dropped
    else if s[i + 1] == '*' then All
    else if s[i + 1] == '{' then BracePiece(s, i + 1)
    else if IsDigit(s[i + 1]) then Word(DigitValue(s[i + 1]))
    else Dropped
  }

  /** Where the next piece starts; |s| + 1 when the text breaks off inside this one. */
  function NextAt(s: string, i: nat): (k: nat)
    requires i < |s|
    ensures i < k <= |s| + 1
  {
    if s[i] != '$' then i + 1
    else if i + 1 < |s| && s[i + 1] == '{' then SkipToBrace(s, i + 1) + 1
    else i + 2
  }

  function Pieces(s: string, i: nat): seq<Piece>
    decreases |s| - i
  {
    if i >= |s| then [] else [PieceAt(s, i)] + Pieces(s, NextAt(s, i))
  }

  // ---------- meaning ----------

  /** The first word of a range. */
  function First(p: Piece): int {
    match p
    case Only(a) => a
    case From(a) => a
    case Between(a, _) => a
    case _ => 0
  }

  /** The last word of a range over `n` words. */
  function Last(p: Piece, n: int): int {
    var b := match p
      case Only(a) => a
      case UpTo(b) => b
      case Between(_, b) => b
      case _ => n - 1;
    if b >= n then n - 1 else b
  }

  /** A range may not begin before the first word. */
  predicate Addressable(p: Piece, n: int) {
    First(p) <= Last(p, n) ==> First(p) >= 0
  }

  function WordEnd(text: string, i: nat): (e: nat)
    requires i <= |text|
    ensures i <= e <= |text|
    ensures forall k :: i <= k < e ==> text[k] != ' ' && text[k] != '\t'
    ensures e < |text| ==> text[e] == ' ' || text[e] == '\t'
    decreases |text| - i
  {
    if i < |text| && text[i] != ' ' && text[i] != '\t' then WordEnd(text, i + 1) else i
  }

  /** Words a to b of the text, with the spaces between them. */
  function Words(text: string, a: nat, b: nat): (r: string)
    requires a <= b < |WordStarts(text)|
  {
    WordStartsAre(text);
    var starts := WordStarts(text);
    text[starts[a]..if b + 1 == |starts| then |text| else starts[b + 1] - 1]
  }

  function Rendered(p: Piece, text: string): string
    requires Addressable(p, |WordStarts(text)|)
  {
    var starts := WordStarts(text);
    match p
    case Literal(c) => [c]
    case All => text
    case Dropped => []
    case Word(d) =>
      if d >= |starts| then []
      else
        WordStartsAre(text);
        text[starts[d]..WordEnd(text, starts[d])]
    case _ => if First(p) > Last(p, |starts|) then [] else Words(text, First(p), Last(p, |starts|))
  }

  ghost predicate AllAddressable(ps: seq<Piece>, text: string) {
    forall p :: p in ps ==> Addressable(p, |WordStarts(text)|)
  }

  /** Token-by-token substitution. */
  function Substituted(ps: seq<Piece>, text: string): string
    requires AllAddressable(ps, text)
  {
    if ps == [] then [] else Rendered(ps[0], text) + Substituted(ps[1..], text)
  }

  lemma JoinAround(s: string, i: nat, m: nat, e: nat)
    requires i < m <= e <= |s|
    ensures s[i..m - 1] + [s[m - 1]] + s[m..e] == s[i..e]
  {
  }

  /** Neighbouring ranges join with one space to the range over both. */
  lemma RangesJoin(text: string, a: nat, b: nat, c: nat)
    requires a <= b < c < |WordStarts(text)|
    ensures Words(text, a, b) + [' '] + Words(text, b + 1, c) == Words(text, a, c)
  {
    WordStartsAre(text);
    var starts := WordStarts(text);
    var m := starts[b + 1];
    assert m in starts && m != 0;
    assert text[m - 1] == ' ';
    var e := if c + 1 == |starts| then |text| else starts[c + 1] - 1;
    JoinAround(text, starts[a], m, e);
  }

  /** ${0-} is $*. */
  lemma FromZeroIsAll(text: string)
    ensures Rendered(From(0), text) == Rendered(All, text)
  {
    var n := |WordStarts(text)|;
    assert First(From(0)) == 0 && Last(From(0), n) == n - 1;
    assert text[0..|text|] == text;
  }

  /** ${a-} is ${a} and ${(a+1)-}, one space apart. */
  lemma FromSplits(text: string, a: nat)
    requires a + 1 < |WordStarts(text)|
    ensures Rendered(From(a), text) == Rendered(Only(a), text) + [' '] + Rendered(From(a + 1), text)
  {
    RangesJoin(text, a, a, |WordStarts(text)| - 1);
  }

  /** ${a-a} is ${a}. */
  lemma BetweenSame(text: string, a: nat)
    ensures Rendered(Between(a, a), text) == Rendered(Only(a), text)
  {
  }

  /** ${a-b} is ${a} and ${(a+1)-b}, one space apart. */
  lemma BetweenSplits(text: string, a: nat, b: nat)
    requires a < b < |WordStarts(text)|
    ensures Rendered(Between(a, b), text) == Rendered(Only(a), text) + [' '] + Rendered(Between(a + 1, b), text)
  {
    RangesJoin(text, a, a, b);
    BetweenIsWords(text, a, b);
    BetweenIsWords(text, a + 1, b);
    BetweenIsWords(text, a, a);
    BetweenSame(text, a);
  }

  lemma BetweenIsWords(text: string, a: nat, b: nat)
    requires a <= b < |WordStarts(text)|
    ensures Rendered(Between(a, b), text) == Words(text, a, b)
  {
  }

  /** ${-b} is ${0-b}. */
  lemma UpToIsBetween(text: string, b: nat)
    ensures Rendered(UpTo(b), text) == Rendered(Between(0, b), text)
  {
  }

  /** A range that ends at the last word or behind it is ${a-}. */
  lemma BetweenToEnd(text: string, a: nat, b: nat)
    requires b + 1 >= |WordStarts(text)|
    ensures Rendered(Between(a, b), text) == Rendered(From(a), text)
  {
  }

  /** A range that ends before it begins, or begins behind the last word, is empty; any other is not missing. */
  lemma EmptyRanges(text: string, a: nat, b: nat)
    ensures a > b || a >= |WordStarts(text)| ==> Rendered(Between(a, b), text) == []
    ensures a >= |WordStarts(text)| ==> Rendered(Only(a), text) == [] && Rendered(From(a), text) == []
  {
  }

  /** A dollar sign before anything else is dropped with it, and what is dropped or names no word stands for nothing. */
  lemma DroppedIsNothing(s: string, i: nat, text: string, d: nat)
    requires i < |s| && s[i] == '$'
    ensures (i + 1 < |s| && s[i + 1] != '*' && s[i + 1] != '{' && !('0' <= s[i + 1] <= '9')) ==>
              PieceAt(s, i) == Dropped && NextAt(s, i) == i + 2
    ensures i + 1 == |s| ==> PieceAt(s, i) == Dropped
    ensures Rendered(Dropped, text) == [] && (d >= |WordStarts(text)| ==> Rendered(Word(d), text) == [])
  {
  }

  /** ${a} are the characters from the start of word a to the space before the next word, or to the end. */
  lemma OnlyIs(text: string, a: nat)
    requires a < |WordStarts(text)|
    ensures var s := WordStarts(text);
      s[a] <= (if a + 1 < |s| then s[a + 1] - 1 else |text|) <= |text|
      && Rendered(Only(a), text) == text[s[a]..if a + 1 < |s| then s[a + 1] - 1 else |text|]
  {
    WordStartsAre(text);
  }

  /** A template without a dollar sign is its own expansion, whatever the text. */
  lemma {:induction false} PlainTemplate(s: string, i: nat, text: string)
    requires i <= |s| && '$' !in s
    ensures AllAddressable(Pieces(s, i), text) && Substituted(Pieces(s, i), text) == s[i..]
    decreases |s| - i
  {
    if i < |s| {
      PlainTemplate(s, i + 1, text);
      var rest := Pieces(s, i + 1);
      assert s[i] in s && Pieces(s, i) == [Literal(s[i])] + rest;
      assert ([Literal(s[i])] + rest)[1..] == rest;
      assert s[i..] == [s[i]] + s[i + 1..];
    }
  }

  /** A word ends before the space that precedes the next one. */
  lemma WordEndsBefore(text: string, i: nat, m: nat)
    requires i <= m < |text| && (text[m] == ' ' || text[m] == '\t')
    ensures WordEnd(text, i) <= m
  {
  }

  lemma SlicePrefix(s: string, i: nat, e: nat, f: nat)
    requires i <= e <= f <= |s|
    ensures s[i..e] <= s[i..f]
    ensures e < f ==> s[i..f][|s[i..e]|] == s[e]
  {
  }

  /** $d is the part of ${d} before its first space or tab. */
  lemma WordIsPrefix(text: string, d: nat)
    requires d < |WordStarts(text)|
    ensures Rendered(Word(d), text) <= Rendered(Only(d), text)
    ensures forall c :: c in Rendered(Word(d), text) ==> c != ' ' && c != '\t'
    ensures var k := |Rendered(Word(d), text)|; var whole := Rendered(Only(d), text);
      k < |whole| ==> whole[k] == ' ' || whole[k] == '\t'
  {
    WordStartsAre(text);
    var starts := WordStarts(text);
    var i := starts[d];
    var e := WordEnd(text, i);
    var f := if d + 1 == |starts| then |text| else starts[d + 1] - 1;
    assert e <= f by {
      if d + 1 < |starts| {
        var m := starts[d + 1];
        assert m in starts && m != 0;
        WordEndsBefore(text, i, m - 1);
      }
    }
    SlicePrefix(text, i, e, f);
    assert Rendered(Word(d), text) == text[i..e];
    assert Rendered(Only(d), text) == text[i..f];
  }

  // ---------- writing ----------

  /** The pieces that have a written form. */
  predicate Printable(p: Piece) {
    match p
    case Literal(c) => c != '$'
    case All => true
    case Word(d) => d < 10
    case Only(a) => a >= 0
    case UpTo(b) => b > 0
    case From(a) => a >= 0
    case Between(a, b) => a >= 0 && b >= 0
    case Dropped => false
  }

  function InBraces(p: Piece): string
    requires Printable(p) && (p.Only? || p.UpTo? || p.From? || p.Between?)
  {
    match p
    case Only(a) => ['{'] + Decimal(a) + ['}']
    case UpTo(b) => ['{', '-'] + Decimal(b) + ['}']
    case From(a) => ['{'] + Decimal(a) + ['-', '}']
    case Between(a, b) => ['{'] + Decimal(a) + ['-'] + Decimal(b) + ['}']
  }

  function Written(p: Piece): string
    requires Printable(p)
  {
    match p
    case Literal(c) => [c]
    case All => ['$', '*']
    case Word(d) => ['$', DigitChar(d)]
    case _ => ['$'] + InBraces(p)
  }

  ghost predicate AllPrintable(ps: seq<Piece>) {
    forall p :: p in ps ==> Printable(p)
  }

  function AllWritten(ps: seq<Piece>): string
    requires AllPrintable(ps)
  {
    if ps == [] then [] else Written(ps[0]) + AllWritten(ps[1..])
  }

  /** White space in front of a number is skipped, and a plus sign in front of a digit changes nothing. */
  lemma ScanIgnores(s: string, i: nat)
    requires i < |s|
    ensures s[i] == ' ' || s[i] == '\t' || s[i] == '\n' ==> ScanInt(s, i) == ScanInt(s, i + 1)
    ensures s[i] == '+' && i + 1 < |s| && IsDigit(s[i + 1]) ==> ScanInt(s, i) == ScanInt(s, i + 1)
  {
    if s[i] == '+' && i + 1 < |s| && IsDigit(s[i + 1]) {
      assert SkipSpace(s, i) == i && SkipSpace(s, i + 1) == i + 1;
    }
  }

  /** A run of digits is read as its value, also behind a minus sign. */
  lemma ScanDigits(s: string, i: nat, e: nat)
    requires i < e < |s| && AllDigits(s[i..e]) && !IsDigit(s[e])
    ensures ScanInt(s, i) == Some((ValueOf(s[i..e]) as int, e))
  {
    assert s[i..e][0] == s[i];
    DigitsEndFrom(s, i, e);
  }

  lemma ScanMinus(s: string, i: nat, e: nat)
    requires i + 1 < e < |s| && s[i] == '-' && AllDigits(s[i + 1..e]) && !IsDigit(s[e])
    ensures ScanInt(s, i) == Some((-(ValueOf(s[i + 1..e]) as int), e))
  {
    DigitsEndFrom(s, i + 1, e);
  }

  lemma {:induction false} SkipDigits(s: string, i: nat, e: nat)
    requires i <= e <= |s| && AllDigits(s[i..e])
    ensures SkipToBrace(s, i) == SkipToBrace(s, e)
    decreases e - i
  {
    if i < e {
      assert IsDigit(s[i..e][0]);
      assert s[i + 1..e] == s[i..e][1..];
      SkipDigits(s, i + 1, e);
    }
  }

  lemma DecimalFacts(v: nat, d: string)
    requires d == Decimal(v)
    ensures |d| > 0 && AllDigits(d) && ValueOf(d) == v
  {
    ValueOfDecimal(v);
  }

  /** A printed number is read back, up to the character after it. */
  lemma ScanPrinted(s: string, i: nat, v: nat, e: nat)
    requires i <= e < |s| && s[i..e] == Decimal(v) && !IsDigit(s[e])
    ensures i < e && ScanInt(s, i) == Some((v as int, e))
    ensures SkipToBrace(s, i) == SkipToBrace(s, e)
  {
    DecimalFacts(v, s[i..e]);
    ScanDigits(s, i, e);
    SkipDigits(s, i, e);
  }

  /** ... also behind a minus sign. */
  lemma ScanNegative(s: string, i: nat, v: nat, e: nat)
    requires i + 1 <= e < |s| && s[i] == '-' && s[i + 1..e] == Decimal(v) && !IsDigit(s[e])
    ensures ScanInt(s, i) == Some((-(v as int), e))
    ensures SkipToBrace(s, i) == SkipToBrace(s, e)
  {
    DecimalFacts(v, s[i + 1..e]);
    ScanMinus(s, i, e);
    SkipDigits(s, i + 1, e);
  }

  lemma NoIntAtBrace(s: string, k: nat)
    requires k < |s| && s[k] == '}'
    ensures ScanInt(s, k) == None
  {
  }

  /** An opening brace, one number and the closing brace. */
  lemma SingleReads(s: string, i: nat, v: int, e: nat)
    requires i + 1 < e < |s| && s[i] == '{' && s[e] == '}'
    requires ScanInt(s, i + 1) == Some((v, e)) && SkipToBrace(s, i + 1) == SkipToBrace(s, e)
    ensures BracePiece(s, i) == (if v < 0 then UpTo(-v) else Only(v)) && SkipToBrace(s, i) == e
  {
    assert ScanPair(s, i) == None;
    assert ScanSymbol(s, i) == Some((v, '}'));
  }

  /** ... with a minus sign between them. */
  lemma OpenReads(s: string, i: nat, v: int, e: nat)
    requires i + 1 < e && e + 1 < |s| && s[i] == '{' && s[e] == '-' && s[e + 1] == '}'
    requires ScanInt(s, i + 1) == Some((v, e)) && SkipToBrace(s, i + 1) == SkipToBrace(s, e)
    requires ScanInt(s, e + 1) == None
    ensures BracePiece(s, i) == From(v) && SkipToBrace(s, i) == e + 1
  {
    assert ScanPair(s, i) == None;
    assert ScanSymbol(s, i) == Some((v, '-'));
  }

  /** ... and two numbers with a minus sign between them. */
  lemma PairReads(s: string, i: nat, v: int, e: nat, w: int, f: nat)
    requires i + 1 < e && e + 1 < f < |s| && s[i] == '{' && s[e] == '-' && s[f] == '}'
    requires ScanInt(s, i + 1) == Some((v, e)) && SkipToBrace(s, i + 1) == SkipToBrace(s, e)
    requires ScanInt(s, e + 1) == Some((w, f)) && SkipToBrace(s, e + 1) == SkipToBrace(s, f)
    ensures BracePiece(s, i) == Between(v, w) && SkipToBrace(s, i) == f
  {
    assert ScanPair(s, i) == Some((v, w));
  }

  predicate Occurs(s: string, i: nat, w: string) {
    i + |w| <= |s| && s[i..i + |w|] == w
  }

  lemma OccursSplit(s: string, i: nat, x: string, y: string)
    requires Occurs(s, i, x + y)
    ensures Occurs(s, i, x) && Occurs(s, i + |x|, y)
  {
    var w := s[i..i + |x + y|];
    assert s[i..i + |x|] == w[..|x|] == x;
    assert s[i + |x|..i + |x| + |y|] == w[|x|..] == y;
  }

  lemma OccursThree(s: string, i: nat, x: string, y: string, z: string)
    requires Occurs(s, i, x + y + z)
    ensures Occurs(s, i, x) && Occurs(s, i + |x|, y) && Occurs(s, i + |x| + |y|, z)
  {
    OccursSplit(s, i, x + y, z);
    OccursSplit(s, i, x, y);
  }

  lemma CharAt(s: string, i: nat, w: string, k: nat)
    requires Occurs(s, i, w) && k < |w|
    ensures i + k < |s| && s[i + k] == w[k]
  {
    assert s[i..i + |w|][k] == w[k];
  }

  /** The three parts of a written brace, by position. */
  lemma PartsAt(s: string, i: nat, x: string, d: string, z: string)
    requires Occurs(s, i, x + d + z)
    ensures i + |x| + |d| + |z| <= |s| && s[i + |x|..i + |x| + |d|] == d
    ensures forall k :: 0 <= k < |x| ==> s[i + k] == x[k]
    ensures forall k :: 0 <= k < |z| ==> s[i + |x| + |d| + k] == z[k]
  {
    OccursThree(s, i, x, d, z);
    forall k | 0 <= k < |x| ensures s[i + k] == x[k] { CharAt(s, i, x, k); }
    forall k | 0 <= k < |z| ensures s[i + |x| + |d| + k] == z[k] { CharAt(s, i + |x| + |d|, z, k); }
  }

  lemma OnlyReadsBack(s: string, i: nat, a: nat, x: string, d: string, z: string)
    requires d == Decimal(a) && Occurs(s, i, x + d + z)
    requires |x| == 1 && x[0] == '{' && |z| == 1 && z[0] == '}'
    ensures i < |s| && s[i] == '{' && BracePiece(s, i) == Only(a) && SkipToBrace(s, i) == i + 1 + |d|
  {
    var e := i + 1 + |d|;
    PartsAt(s, i, x, d, z);
    assert s[i] == x[0] && s[e] == z[0];
    ScanPrinted(s, i + 1, a, e);
    SingleReads(s, i, a, e);
  }

  lemma UpToReadsBack(s: string, i: nat, b: nat, x: string, d: string, z: string)
    requires b > 0 && d == Decimal(b) && Occurs(s, i, x + d + z)
    requires |x| == 2 && x[0] == '{' && x[1] == '-' && |z| == 1 && z[0] == '}'
    ensures i < |s| && s[i] == '{' && BracePiece(s, i) == UpTo(b) && SkipToBrace(s, i) == i + 2 + |d|
  {
    var e := i + 2 + |d|;
    PartsAt(s, i, x, d, z);
    assert s[i] == x[0] && s[i + 1] == x[1] && s[e] == z[0];
    ScanNegative(s, i + 1, b, e);
    SingleReads(s, i, -(b as int), e);
  }

  lemma FromReadsBack(s: string, i: nat, a: nat, x: string, d: string, z: string)
    requires d == Decimal(a) && Occurs(s, i, x + d + z)
    requires |x| == 1 && x[0] == '{' && |z| == 2 && z[0] == '-' && z[1] == '}'
    ensures i < |s| && s[i] == '{' && BracePiece(s, i) == From(a) && SkipToBrace(s, i) == i + 2 + |d|
  {
    var e := i + 1 + |d|;
    PartsAt(s, i, x, d, z);
    assert s[i] == x[0] && s[e] == z[0] && s[e + 1] == z[1];
    ScanPrinted(s, i + 1, a, e);
    NoIntAtBrace(s, e + 1);
    OpenReads(s, i, a, e);
  }

  /** The number v stands from i to e. */
  predicate NumberAt(s: string, i: nat, v: nat, e: nat) {
    i < e < |s| && ScanInt(s, i) == Some((v as int, e)) && SkipToBrace(s, i) == SkipToBrace(s, e)
  }

  lemma NumberReads(s: string, i: nat, v: nat, e: nat)
    requires i <= e < |s| && s[i..e] == Decimal(v) && !IsDigit(s[e])
    ensures NumberAt(s, i, v, e)
  {
    ScanPrinted(s, i, v, e);
  }

  lemma TwoNumbersRead(s: string, i: nat, a: nat, e: nat, b: nat, f: nat)
    requires NumberAt(s, i + 1, a, e) && s[i] == '{' && s[e] == '-' && NumberAt(s, e + 1, b, f) && s[f] == '}'
    ensures BracePiece(s, i) == Between(a, b) && SkipToBrace(s, i) == f
  {
    PairReads(s, i, a, e, b, f);
  }

  lemma BetweenReads(s: string, i: nat, a: nat, e: nat, b: nat, f: nat)
    requires i + 1 <= e && e + 1 <= f < |s| && s[i] == '{' && s[e] == '-' && s[f] == '}'
    requires s[i + 1..e] == Decimal(a) && s[e + 1..f] == Decimal(b)
    ensures BracePiece(s, i) == Between(a, b) && SkipToBrace(s, i) == f
  {
    NumberReads(s, i + 1, a, e);
    NumberReads(s, e + 1, b, f);
    TwoNumbersRead(s, i, a, e, b, f);
  }

  lemma HalfAt(s: string, i: nat, x: string, d: string, y: string)
    requires Occurs(s, i, x + d + y) && |x| == 1 == |y|
    ensures i + |d| + 1 < |s| && s[i] == x[0] && s[i + 1..i + 1 + |d|] == d && s[i + 1 + |d|] == y[0]
  {
    PartsAt(s, i, x, d, y);
    assert s[i + 0] == x[0] && s[i + |x| + |d| + 0] == y[0];
  }

  /** The five parts of a written range, by position. */
  lemma BetweenParts(s: string, i: nat, x: string, d: string, y: string, f: string, z: string, e: nat, k: nat)
    requires Occurs(s, i, x + d + y + f + z) && |x| == 1 == |y| && |z| == 1 && e == i + 1 + |d| && k == e + 1 + |f|
    ensures k < |s| && s[i] == x[0] && s[i + 1..e] == d && s[e] == y[0] && s[e + 1..k] == f && s[k] == z[0]
  {
    OccursThree(s, i, x + d + y, f, z);
    HalfAt(s, i, x, d, y);
    CharAt(s, k, z, 0);
  }

  lemma BetweenReadsBack(s: string, i: nat, a: nat, b: nat, x: string, d: string, y: string, f: string, z: string)
    requires d == Decimal(a) && f == Decimal(b) && Occurs(s, i, x + d + y + f + z)
    requires |x| == 1 && x[0] == '{' && |y| == 1 && y[0] == '-' && |z| == 1 && z[0] == '}'
    ensures i < |s| && s[i] == '{'
    ensures BracePiece(s, i) == Between(a, b) && SkipToBrace(s, i) == i + 2 + |d| + |f|
  {
    var e := i + 1 + |d|;
    BetweenParts(s, i, x, d, y, f, z, e, e + 1 + |f|);
    BetweenReads(s, i, a, e, b, e + 1 + |f|);
  }

  lemma BraceReadsBack(s: string, i: nat, p: Piece)
    requires Printable(p) && (p.Only? || p.UpTo? || p.From? || p.Between?)
    requires Occurs(s, i, InBraces(p))
    ensures i < |s| && s[i] == '{'
    ensures BracePiece(s, i) == p && SkipToBrace(s, i) + 1 == i + |InBraces(p)|
  {
    match p
    case Only(a) => OnlyReadsBack(s, i, a, ['{'], Decimal(a), ['}']);
    case UpTo(b) => UpToReadsBack(s, i, b, ['{', '-'], Decimal(b), ['}']);
    case From(a) => FromReadsBack(s, i, a, ['{'], Decimal(a), ['-', '}']);
    case Between(a, b) => BetweenReadsBack(s, i, a, b, ['{'], Decimal(a), ['-'], Decimal(b), ['}']);
  }

  lemma DollarReadsBack(s: string, i: nat, p: Piece, x: string, w: string)
    requires Printable(p) && (p.Only? || p.UpTo? || p.From? || p.Between?) && w == InBraces(p)
    requires |x| == 1 && x[0] == '$' && Occurs(s, i, x + w)
    ensures i < |s| && PieceAt(s, i) == p && NextAt(s, i) == i + 1 + |w|
  {
    OccursSplit(s, i, x, w);
    CharAt(s, i, x, 0);
    BraceReadsBack(s, i + 1, p);
  }

  /** A written piece is read back, and reading goes on right behind it. */
  lemma PieceReadsBack(s: string, i: nat, p: Piece)
    requires Printable(p) && Occurs(s, i, Written(p))
    ensures i < |s| && PieceAt(s, i) == p && NextAt(s, i) == i + |Written(p)|
  {
    if p.Only? || p.UpTo? || p.From? || p.Between? {
      DollarReadsBack(s, i, p, ['$'], InBraces(p));
    } else {
      CharAt(s, i, Written(p), 0);
      if !p.Literal? {
        CharAt(s, i, Written(p), 1);
      }
    }
  }

  lemma PiecesStep(s: string, i: nat, p: Piece, k: nat)
    requires i < |s| && PieceAt(s, i) == p && NextAt(s, i) == k
    ensures Pieces(s, i) == [p] + Pieces(s, k)
  {
  }

  lemma Middle(s: string, pre: string, w: string, rest: string)
    requires s == pre + (w + rest)
    ensures Occurs(s, |pre|, w) && s == (pre + w) + rest && |pre + w| == |pre| + |w|
  {
  }

  lemma PiecesEnd(s: string, pre: string)
    requires s == pre + []
    ensures Pieces(s, |pre|) == []
  {
  }

  lemma FirstWritten(ps: seq<Piece>)
    requires AllPrintable(ps) && ps != []
    ensures AllPrintable(ps[1..]) && Printable(ps[0])
    ensures AllWritten(ps) == Written(ps[0]) + AllWritten(ps[1..])
  {
  }

  /** One written piece is one step of reading. */
  lemma ReadStep(s: string, i: nat, p: Piece, k: nat)
    requires Printable(p) && Occurs(s, i, Written(p)) && k == i + |Written(p)|
    ensures Pieces(s, i) == [p] + Pieces(s, k)
  {
    PieceReadsBack(s, i, p);
    PiecesStep(s, i, p, k);
  }

  /** Behind any prefix, a sequence of written pieces is read back. */
  lemma {:induction false} ReadUndoesWriteAt(s: string, pre: string, ps: seq<Piece>)
    requires AllPrintable(ps) && s == pre + AllWritten(ps)
    ensures Pieces(s, |pre|) == ps
    decreases |ps|
  {
    if ps == [] {
      PiecesEnd(s, pre);
    } else {
      FirstWritten(ps);
      Middle(s, pre, Written(ps[0]), AllWritten(ps[1..]));
      ReadUndoesWriteAt(s, pre + Written(ps[0]), ps[1..]);
      ReadStep(s, |pre|, ps[0], |pre + Written(ps[0])|);
    }
  }

  /** Reading undoes writing, for every sequence of pieces. */
  lemma ReadUndoesWrite(ps: seq<Piece>)
    requires AllPrintable(ps)
    ensures Pieces(AllWritten(ps), 0) == ps
  {
    var text := AllWritten(ps);
    assert text == [] + text;
    ReadUndoesWriteAt(text, [], ps);
  }
}
