/** The characters of base64: the alphabet, the decoding table and the white space that is skipped. */
module Base64Alphabet {

  /** Table 1 of section 4 of RFC 4648, in the order of the values. */
  const ALPHABET: string := "ABCDEFGHIJKLMNOPQRSTUVWXYZ" + "abcdefghijklmnopqrstuvwxyz" + "0123456789+/"

  /** What `isspace` accepts in the C locale. */
  const SPACES: set<char> := {' ', '\t', '\n', '\U{0B}', '\U{0C}', '\r'}

  /** The symbol of a value, by range. */
  function Symbol(s: nat): char
    requires s < 64
  {
    if s < 26 then ('A' as int + s) as char
    else if s < 52 then ('a' as int + (s - 26)) as char
    else if s < 62 then ('0' as int + (s - 52)) as char
    else if s == 62 then '+' else '/'
  }

  /** The decoding table: the value of a symbol, 0 for the pad, -1 for everything else. */
  function Sextet(c: char): (s: int)
    ensures -1 <= s < 64
  {
    if 'A' <= c <= 'Z' then c as int - 'A' as int
    else if 'a' <= c <= 'z' then c as int - 'a' as int + 26
    else if '0' <= c <= '9' then c as int - '0' as int + 52
    else if c == '+' then 62
    else if c == '/' then 63
    else if c == '=' then 0
    else -1
  }

  predicate IsSpace(c: char) {
    c == ' ' || 9 <= c as int <= 13
  }

  lemma SymbolDecodes(s: nat)
    requires s < 64
    ensures Sextet(Symbol(s)) == s && Symbol(s) != '=' && !IsSpace(Symbol(s)) && Symbol(s) != '\0'
  {
  }

  lemma UpperCase()
    ensures "ABCDEFGHIJKLMNOPQRSTUVWXYZ" == seq(26, s requires 0 <= s < 26 => Symbol(s))
  {
  }

  lemma LowerCase()
    ensures "abcdefghijklmnopqrstuvwxyz" == seq(26, s requires 0 <= s < 26 => Symbol(26 + s))
  {
  }

  lemma OtherSymbols()
    ensures "0123456789+/" == seq(12, s requires 0 <= s < 12 => Symbol(52 + s))
  {
  }

  lemma Joined(all: string, a: string, b: string, c: string, s: nat)
    requires |a| == |b| == 26 && |c| == 12 && all == a + b + c && s < 64
    ensures |all| == 64 && all[s] == if s < 26 then a[s] else if s < 52 then b[s - 26] else c[s - 52]
  {
  }

  /** Symbol `s` is character `s` of the alphabet. */
  lemma SymbolInTable(s: nat)
    requires s < 64
    ensures |ALPHABET| == 64 && ALPHABET[s] == Symbol(s)
  {
    UpperCase();
    LowerCase();
    OtherSymbols();
    Joined(ALPHABET, seq(26, s requires 0 <= s < 26 => Symbol(s)), seq(26, s requires 0 <= s < 26 => Symbol(26 + s)),
           seq(12, s requires 0 <= s < 12 => Symbol(52 + s)), s);
  }

  lemma SextetBack(c: char)
    ensures Sextet(c) < 0 ==> c != '=' && forall s: nat :: s < 64 ==> Symbol(s) != c
    ensures Sextet(c) >= 0 && c != '=' ==> Symbol(Sextet(c)) == c
  {
  }

  /** The decoding table accepts the alphabet and the pad alone, and gives each symbol its place in the alphabet. */
  lemma SextetInTable(c: char)
    ensures |ALPHABET| == 64 && '=' !in ALPHABET && Sextet('=') == 0
    ensures Sextet(c) >= 0 <==> c in ALPHABET || c == '='
    ensures c in ALPHABET ==> ALPHABET[Sextet(c)] == c
    ensures forall s: nat :: s < 64 && ALPHABET[s] == c ==> Sextet(c) == s
  {
    forall s: nat | s < 64 ensures ALPHABET[s] == Symbol(s) && |ALPHABET| == 64 {
      SymbolInTable(s);
    }
    SymbolInTable(0);
    SextetBack(c);
    if s: nat :| s < 64 && ALPHABET[s] == c {
      SymbolDecodes(s);
    }
    if '=' in ALPHABET {
      var s: nat :| s < |ALPHABET| && ALPHABET[s] == '=';
      SymbolDecodes(s);
    }
  }

  /** The white space skipped is that of the set. */
  lemma SpaceInSet(c: char)
    ensures IsSpace(c) <==> c in SPACES
    ensures c in SPACES ==> c !in ALPHABET && c != '=' && c != '\0'
  {
    if c in ALPHABET {
      SextetInTable(c);
    }
  }
}
