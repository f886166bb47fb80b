/** The expressions and replacements of the masking rules (packages/pii-mask/src/index.ts). */
module MaskRules {
  import opened Prelude
  import opened Texts
  import opened Regex
  import opened EmailScan

  const MARK_RRN := '\U{E210}'
  const MARK_CARD := '\U{E211}'
  const TEXT_RRN := "[주민등록번호]"
  const TEXT_CARD := "[카드번호]"
  const TEXT_PHONE := "[전화번호]"
  const TEXT_ACCOUNT := "[계좌번호]"
  const TEXT_EMAIL := "[이메일]"

  predicate IsMark(c: char) { c == MARK_RRN || c == MARK_CARD }

  predicate IsDash(c: char) { c == '-' }

  predicate IsDashOrSpace(c: char) { c == '-' || c == ' ' }

  predicate IsDashOrDigit(c: char) { c == '-' || IsDigit(c) }

  predicate IsCentury(c: char) { '1' <= c <= '8' }

  predicate IsCarrier(c: char) { c in "016789" }

  // ---------------------------------------------------------------- the expressions

  function Digits(lo: nat, hi: nat): Re { Rep(IsDigit, lo, Some(hi)) }

  function DashMaybe(): Re { Rep(IsDash, 0, Some(1)) }

  function Rrn(): Re { Cat(Digits(6, 6), Cat(DashMaybe(), Cat(One(IsCentury), Digits(6, 6)))) }

  function Card(): Re
  {
    var gap := Rep(IsDashOrSpace, 0, Some(1));
    Cat(Digits(4, 4), Cat(gap, Cat(Digits(4, 4), Cat(gap, Cat(Digits(4, 4), Cat(gap, Cat(Digits(2, 4), NotAhead(IsDashOrDigit))))))))
  }

  function Mobile(): Re
  {
    Cat(Lit("01"), Cat(One(IsCarrier),
      Cat(DashMaybe(), Cat(Digits(3, 4), Cat(DashMaybe(), Digits(4, 4))))))
  }

  function Landline(): Re
  {
    Cat(Lit("0"), Cat(Digits(1, 2), Cat(Lit("-"), Cat(Digits(3, 4), Cat(Lit("-"), Digits(4, 4))))))
  }

  function Phone(): Re { Or(Mobile(), Landline()) }

  function Account(): Re
  {
    Cat(Digits(2, 6), Cat(Lit("-"), Cat(Digits(2, 6), Cat(Lit("-"), Cat(Digits(2, 6), Optional(Cat(Lit("-"), Digits(1, 6))))))))
  }

  function Token(): Re { Or(One(IsMark), Or(Lit(TEXT_RRN), Lit(TEXT_CARD))) }

  function AnyDigits(): Re { Rep(IsDigit, 0, None) }

  function Link(): Re { Cat(Token(), AnyDigits()) }

  /** Marks and printed marks with digits right before, between and after them. */
  function Chunk(): Re { Cat(NotBehind(IsDigit), Cat(AnyDigits(), Plus(Link()))) }

  function Long(): Re { Cat(NotBehind(IsDigit), Cat(Rep(IsDigit, 14, None), NotAhead(IsDigit))) }

  function Amex(): Re
  {
    Cat(NotBehind(IsDigit), Cat(Digits(4, 4), Cat(Lit(" "), Cat(Digits(6, 6), Cat(Lit(" "), Cat(Digits(5, 5), NotAhead(IsDigit)))))))
  }

  lemma Widths()
    ensures Width(Rrn()) == 13 && Width(Card()) == 14 && Width(Account()) == 8
    ensures Width(Long()) == 14 && Width(Amex()) == 17
  {
  }

  lemma MoreWidths()
    ensures Width(Phone()) == 10 && Width(Link()) == 1 && Width(Chunk()) == 1
  {
    assert Width(Mobile()) == 10 && Width(Landline()) == 11;
  }

  // ---------------------------------------------------------------- the replacements

  function OnlyDigits(s: string): (r: string)
    ensures forall k :: 0 <= k < |r| ==> IsDigit(r[k])
  {
    if s == [] then [] else (if IsDigit(s[0]) then [s[0]] else []) + OnlyDigits(s[1..])
  }

  /** `maskPhone`. */
  function MaskPhone(value: string): string
  {
    var digits := OnlyDigits(value);
    if |digits| < 9 then value else digits[..3] + "-****-" + digits[|digits| - 4..]
  }

  function IndexOfAt(s: string): (i: nat)
    ensures i <= |s| && (i < |s| ==> s[i] == '@')
  {
    if s == [] || s[0] == '@' then 0 else 1 + IndexOfAt(s[1..])
  }

  /** `maskEmail`. */
  function MaskEmail(value: string): string
  {
    var at := IndexOfAt(value);
    if at == |value| || at == 0 then value else [value[0]] + "***@" + value[at + 1..]
  }

  predicate IsIn(c: char, lo: char, hi: char) { lo <= c <= hi }

  /** `YYYY-MM-DD` with a year of 19xx or 20xx, a month up to 12 and a day up to 31. */
  predicate IsDate(m: string)
  {
    && |m| == 10
    && (m[..2] == "19" || m[..2] == "20") && IsDigit(m[2]) && IsDigit(m[3])
    && m[4] == '-' && m[7] == '-'
    && ((m[5] == '0' && IsIn(m[6], '1', '9')) || (m[5] == '1' && IsIn(m[6], '0', '2')))
    && ((m[8] == '0' && IsIn(m[9], '1', '9')) || (IsIn(m[8], '1', '2') && IsDigit(m[9])) || (m[8] == '3' && IsIn(m[9], '0', '1')))
  }

  /** `isStandaloneDate`: a date with neither a digit nor a dash next to it. */
  predicate IsStandaloneDate(s: string, m: Span)
  {
    && IsDate(Cut(s, m))
    && !(0 < m.from <= |s| && IsDashOrDigit(s[m.from - 1]))
    && !(m.to < |s| && IsDashOrDigit(s[m.to]))
  }
}
