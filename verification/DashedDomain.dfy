/**
 Domains as namespace names: `.` becomes `-` and `-` becomes `--`. How far the encoding can be undone
 decides which domains may claim the same namespace.
 */
module DashedDomain {

  /** `strings.ReplaceAll` for a one-character pattern. */
  function ReplaceAll(s: string, c: char, repl: string): string {
    if s == "" then ""
    else (if s[0] == c then repl else [s[0]]) + ReplaceAll(s[1..], c, repl)
  }

  /** `getDashedDomain`: first the dashes are doubled, then the dots become dashes. */
  function GetDashedDomain(domain: string): string {
    ReplaceAll(ReplaceAll(domain, '-', "--"), '.', "-")
  }

  function DashChar(c: char): string {
    if c == '-' then "--" else if c == '.' then "-" else [c]
  }

  /** One pass, character by character. */
  function Dash(domain: string): string {
    if domain == "" then "" else DashChar(domain[0]) + Dash(domain[1..])
  }

  /** From left to right: two dashes stand for a dash, one for a dot. */
  function Undash(s: string): string {
    if s == "" then ""
    else if s[0] != '-' then [s[0]] + Undash(s[1..])
    else if |s| > 1 && s[1] == '-' then "-" + Undash(s[2..])
    else "." + Undash(s[1..])
  }

  /** No dot stands directly before a dot or a dash. */
  predicate Plain(domain: string) {
    forall i | 0 <= i < |domain| - 1 :: domain[i] == '.' ==> domain[i + 1] != '.' && domain[i + 1] != '-'
  }

  predicate DotFree(s: string) {
    '.' !in s
  }

  lemma {:induction false} ReplaceAllConcat(s: string, t: string, c: char, repl: string)
    ensures ReplaceAll(s + t, c, repl) == ReplaceAll(s, c, repl) + ReplaceAll(t, c, repl)
  {
    if s == "" {
      assert s + t == t;
    } else {
      assert (s + t)[1..] == s[1..] + t;
      ReplaceAllConcat(s[1..], t, c, repl);
    }
  }

  /** The two replacements in a row equal the one-pass map, whatever the domain. */
  lemma {:induction false} DashedIsOnePass(domain: string)
    ensures GetDashedDomain(domain) == Dash(domain)
    ensures DotFree(Dash(domain))
  {
    if domain != "" {
      DashedIsOnePass(domain[1..]);
      var first := if domain[0] == '-' then "--" else [domain[0]];
      ReplaceAllConcat(first, ReplaceAll(domain[1..], '-', "--"), '.', "-");
      ReplaceFirst(domain[0]);
    }
  }

  /** Character by character: a dash is doubled, a dot becomes a dash, all else stays. */
  lemma DashedCharacters(c: char, domain: string)
    ensures GetDashedDomain("") == ""
    ensures GetDashedDomain([c] + domain) ==
      (if c == '-' then "--" else if c == '.' then "-" else [c]) + GetDashedDomain(domain)
  {
    DashedIsOnePass("");
    DashedIsOnePass([c] + domain);
    DashedIsOnePass(domain);
    assert ([c] + domain)[1..] == domain;
  }

  lemma ReplaceFirst(c: char)
    ensures ReplaceAll(if c == '-' then "--" else [c], '.', "-") == DashChar(c)
  {
    if c == '-' {
      assert "--"[1..] == "-" && "-"[1..] == "";
      assert ReplaceAll("-", '.', "-") == "-" + ReplaceAll("", '.', "-");
    } else {
      assert [c][1..] == "";
    }
  }

  /** The first character is a dot that must not stand before the second. */
  predicate BadStart(domain: string) {
    |domain| > 1 && domain[0] == '.' && (domain[1] == '.' || domain[1] == '-')
  }

  lemma PlainFirst(domain: string)
    requires domain != ""
    ensures Plain(domain) <==> Plain(domain[1..]) && !BadStart(domain)
  {
    var rest := domain[1..];
    assert forall i | 0 <= i < |rest| :: rest[i] == domain[i + 1];
    if Plain(rest) && !BadStart(domain) {
      forall i | 0 <= i < |domain| - 1
        ensures domain[i] == '.' ==> domain[i + 1] != '.' && domain[i + 1] != '-'
      {
        if i > 0 {
          assert domain[i] == rest[i - 1] && domain[i + 1] == rest[i - 1 + 1];
        }
      }
    }
  }

  lemma DashStarts(domain: string)
    ensures Dash(domain) != "" && Dash(domain)[0] == '-' <==> domain != "" && (domain[0] == '.' || domain[0] == '-')
  {
  }

  /** One character's share of decoding what was encoded. */
  lemma UndashFirst(domain: string)
    requires domain != ""
    ensures !BadStart(domain) ==> Undash(Dash(domain)) == [domain[0]] + Undash(Dash(domain[1..]))
    ensures BadStart(domain) ==> Undash(Dash(domain)) != "" && Undash(Dash(domain))[0] == '-'
  {
    var rest := Dash(domain[1..]);
    DashStarts(domain[1..]);
    if domain[0] == '-' {
      assert ("--" + rest)[2..] == rest;
    } else {
      assert Dash(domain)[1..] == rest;
    }
  }

  /** The encoding can be undone exactly on the domains in which no dot precedes a dot or a dash. */
  lemma {:induction false} RoundTripExactly(domain: string)
    ensures Undash(Dash(domain)) == domain <==> Plain(domain)
  {
    if domain != "" {
      RoundTripExactly(domain[1..]);
      UndashFirst(domain);
      PlainFirst(domain);
      assert domain == [domain[0]] + domain[1..];
      if !BadStart(domain) {
        var rest := Undash(Dash(domain[1..]));
        assert ([domain[0]] + rest)[1..] == rest;
      }
    }
  }

  lemma UndashStarts(s: string)
    requires DotFree(s)
    ensures Undash(s) != "" ==> s != "" && (Undash(s)[0] == '.' || Undash(s)[0] == '-' <==> s[0] == '-')
  {
  }

  /** Every dot-free name is the encoding of one plain domain. */
  lemma {:induction false} DashUndash(s: string)
    requires DotFree(s)
    ensures Dash(Undash(s)) == s && Plain(Undash(s))
    decreases |s|
  {
    if s != "" {
      var k := if s[0] == '-' && |s| > 1 && s[1] == '-' then 2 else 1;
      var rest := s[k..];
      DashUndash(rest);
      UndashStarts(rest);
      assert s == s[..k] + rest;
      assert k == 1 && s[0] == '-' && rest != "" ==> rest[0] != '-';
      var c := if k == 2 then '-' else if s[0] == '-' then '.' else s[0];
      assert Undash(s) == [c] + Undash(rest) && DashChar(c) == s[..k];
      OneMoreCharacter(c, Undash(rest));
    }
  }

  lemma OneMoreCharacter(c: char, domain: string)
    requires Plain(domain) && !BadStart([c] + domain)
    ensures Dash([c] + domain) == DashChar(c) + Dash(domain) && Plain([c] + domain)
  {
    assert ([c] + domain)[1..] == domain;
    PlainFirst([c] + domain);
  }

  /** Distinct plain domains never have the same encoding. */
  lemma PlainDomainsDiffer(a: string, b: string)
    requires Plain(a) && Plain(b) && GetDashedDomain(a) == GetDashedDomain(b)
    ensures a == b
  {
    DashedIsOnePass(a);
    DashedIsOnePass(b);
    RoundTripExactly(a);
    RoundTripExactly(b);
  }

  /** Every domain that is not plain shares its encoding with a plain one. */
  lemma OtherDomainsCollide(a: string)
    requires !Plain(a)
    ensures exists b :: Plain(b) && b != a && GetDashedDomain(b) == GetDashedDomain(a)
  {
    var b := Undash(Dash(a));
    DashedIsOnePass(a);
    DashedIsOnePass(b);
    DashUndash(Dash(a));
    RoundTripExactly(a);
  }
}
