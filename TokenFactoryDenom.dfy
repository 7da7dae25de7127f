/** Token factory denominations `factory/{issuer}/{subdenom}`: splitting,
    the subdenom syntax, canonicalisation of a business denom and the lookup
    that maps a bare subdenom to a stored full denom. */
module TokenFactoryDenom {
  import opened Base
  import opened Strings
  import opened Types

  const TOKEN_FACTORY_PREFIX: string := "factory"

  /** `factory/{issuer}/{subdenom}`. */
  function FactoryDenom(issuer: string, subdenom: string): (d: string)
    ensures d == TOKEN_FACTORY_PREFIX + ['/'] + issuer + ['/'] + subdenom
  {
    TOKEN_FACTORY_PREFIX + "/" + issuer + "/" + subdenom
  }

  // ----- the subdenom pattern ^[a-zA-Z][a-zA-Z0-9._-]{2,63}$ -----

  predicate IsAsciiLetter(c: char)
  {
    ('a' <= c <= 'z') || ('A' <= c <= 'Z')
  }

  predicate IsSubdenomChar(c: char)
  {
    IsAsciiLetter(c) || IsDigit(c) || c == '.' || c == '_' || c == '-'
  }

  /** The strings the subdenom pattern matches: 3 to 64 characters, a letter
      first, then letters, digits, dots, underscores and dashes. */
  predicate SubdenomSyntax(s: string)
  {
    3 <= |s| <= 64 && IsAsciiLetter(s[0]) && forall i :: 1 <= i < |s| ==> IsSubdenomChar(s[i])
  }

  /** Scans the repeated part of the pattern. */
  function ScanSubdenomTail(s: string): (ok: bool)
    ensures ok <==> forall i :: 0 <= i < |s| ==> IsSubdenomChar(s[i])
  {
    if s == [] then true else IsSubdenomChar(s[0]) && ScanSubdenomTail(s[1..])
  }

  /** validateSubdenom: matching the pattern, or ErrInvalidDenom. */
  function ValidateSubdenom(s: string): (r: Outcome)
    ensures r.Pass? <==> SubdenomSyntax(s)
    ensures r.Fail? ==> r.error == InvalidDenom
    ensures r.Pass? ==> '/' !in s && !IsSpace(s[0]) && !IsSpace(s[|s| - 1])
  {
    if 3 <= |s| <= 64 && IsAsciiLetter(s[0]) && ScanSubdenomTail(s[1..]) then
      assert forall i :: 1 <= i < |s| ==> s[1..][i - 1] == s[i];
      Pass
    else
      Fail(InvalidDenom)
  }

  // ----- splitting -----

  /** splitTokenFactoryDenom: a denom of exactly three `/`-separated parts,
      the first `factory` and the other two non-empty, gives its issuer and
      subdenom; anything else is ErrInvalidDenom. */
  function SplitTokenFactoryDenom(denom: string): (r: Result<(string, string)>)
    ensures r.Ok? ==>
      && denom == FactoryDenom(r.value.0, r.value.1)
      && r.value.0 != [] && r.value.1 != []
      && '/' !in r.value.0 && '/' !in r.value.1
    ensures r.Err? ==> r.error == InvalidDenom
  {
    var parts := Split(denom, '/');
    if |parts| != 3 || parts[0] != TOKEN_FACTORY_PREFIX then Err(InvalidDenom)
    else if parts[1] == "" || parts[2] == "" then Err(InvalidDenom)
    else
      assert Join(parts, '/') == parts[0] + ['/'] + Join(parts[1..], '/');
      assert Join(parts[1..], '/') == parts[1] + ['/'] + Join(parts[2..], '/');
      Ok((parts[1], parts[2]))
  }

  /** A factory denom built from separator-free parts splits into exactly
      those parts. */
  lemma SplitPartsOfFactoryDenom(issuer: string, subdenom: string)
    requires '/' !in issuer && '/' !in subdenom
    ensures Split(FactoryDenom(issuer, subdenom), '/') == [TOKEN_FACTORY_PREFIX, issuer, subdenom]
  {
    var parts := [TOKEN_FACTORY_PREFIX, issuer, subdenom];
    assert Join(parts[2..], '/') == subdenom;
    assert Join(parts[1..], '/') == issuer + ['/'] + subdenom;
    assert Join(parts, '/') == FactoryDenom(issuer, subdenom);
    assert forall i :: 0 <= i < |parts| ==> '/' !in parts[i];
    SplitJoin(parts, '/');
  }

  /** Splitting a built factory denom gives back its issuer and subdenom. */
  lemma SplitFactoryDenom(issuer: string, subdenom: string)
    requires issuer != [] && subdenom != []
    requires '/' !in issuer && '/' !in subdenom
    ensures SplitTokenFactoryDenom(FactoryDenom(issuer, subdenom)) == Ok((issuer, subdenom))
  {
    SplitPartsOfFactoryDenom(issuer, subdenom);
  }

  /** A factory denom splits successfully only at the issuer it was built
      from, whatever that issuer contains. */
  lemma SplitFactoryDenomIssuer(issuer: string, subdenom: string)
    requires '/' !in subdenom
    requires SplitTokenFactoryDenom(FactoryDenom(issuer, subdenom)).Ok?
    ensures SplitTokenFactoryDenom(FactoryDenom(issuer, subdenom)).value == (issuer, subdenom)
  {
    var d := FactoryDenom(issuer, subdenom);
    var parts := Split(d, '/');
    assert |parts| == 3;
    var p := TOKEN_FACTORY_PREFIX + ['/'];
    var rest := issuer + (['/'] + subdenom);
    assert d == p + rest;
    CountAppend(p, rest, '/');
    CountAppend(TOKEN_FACTORY_PREFIX, ['/'], '/');
    CountAppend(issuer, ['/'] + subdenom, '/');
    CountAppend(['/'], subdenom, '/');
    CountZero(subdenom, '/');
    CountZero(TOKEN_FACTORY_PREFIX, '/');
    assert ['/'][1..] == [];
    assert Count(['/'], '/') == 1;
    assert Count(d, '/') == 2 + Count(issuer, '/');
    CountZero(issuer, '/');
    SplitPartsOfFactoryDenom(issuer, subdenom);
  }

  // ----- validation and canonicalisation -----

  /** validateTokenFactoryDenom: sdk.ValidateDenom, then the split, then the
      issuer must be an address and the subdenom must match the pattern. */
  function ValidateTokenFactoryDenom(env: Env, denom: string): (r: Outcome)
    ensures r.Pass? <==>
      && env.validDenom(denom)
      && SplitTokenFactoryDenom(denom).Ok?
      && IsAddress(env, SplitTokenFactoryDenom(denom).value.0)
      && SubdenomSyntax(SplitTokenFactoryDenom(denom).value.1)
    ensures r.Fail? ==> r.error == InvalidDenom || r.error == InvalidAddress
    ensures r.Fail? && r.error == InvalidAddress ==>
      env.validDenom(denom) && SplitTokenFactoryDenom(denom).Ok?
  {
    if !env.validDenom(denom) then Fail(InvalidDenom)
    else
      match SplitTokenFactoryDenom(denom)
      case Err(e) => Fail(e)
      case Ok((tfIssuer, subdenom)) =>
        if !IsAddress(env, tfIssuer) then Fail(InvalidAddress)
        else ValidateSubdenom(subdenom)
  }

  /** canonicalBusinessDenom: the trimmed input, if it is a full factory
      denom of `issuer`, or else the factory denom built from `issuer` and the
      input as a subdenom; either way it must validate. */
  function CanonicalBusinessDenom(env: Env, denomOrSubdenom: string, issuer: string): (r: Result<string>)
    ensures r.Err? ==> r.error == InvalidDenom || r.error == InvalidAddress || r.error == InvalidRequest
  {
    var d := TrimSpace(denomOrSubdenom);
    if d == "" then Err(InvalidDenom)
    else if HasPrefix(d, TOKEN_FACTORY_PREFIX + "/") then
      match SplitTokenFactoryDenom(d)
      case Err(e) => Err(e)
      case Ok((tfIssuer, _)) =>
        if tfIssuer != issuer then Err(InvalidRequest)
        else
          var v := ValidateTokenFactoryDenom(env, d);
          if v.Fail? then Err(v.error) else Ok(d)
    else if ValidateSubdenom(d).Fail? then Err(InvalidDenom)
    else
      var full := FactoryDenom(issuer, d);
      var v := ValidateTokenFactoryDenom(env, full);
      if v.Fail? then Err(v.error) else Ok(full)
  }

  /** An empty or all-space input is ErrInvalidDenom; a result always
      validates; a full factory denom comes back trimmed and unchanged, and
      one of another issuer is ErrInvalidRequest; a bare subdenom becomes the
      issuer's factory denom. */
  lemma CanonicalBusinessDenomShape(env: Env, denomOrSubdenom: string, issuer: string)
    ensures var r := CanonicalBusinessDenom(env, denomOrSubdenom, issuer);
      var t := TrimSpace(denomOrSubdenom);
      && (t == [] ==> r == Err(InvalidDenom))
      && (r.Ok? ==> ValidateTokenFactoryDenom(env, r.value) == Pass)
      && (r.Ok? && HasPrefix(t, TOKEN_FACTORY_PREFIX + "/") ==> r.value == t)
      && (r.Ok? && !HasPrefix(t, TOKEN_FACTORY_PREFIX + "/") ==> r.value == FactoryDenom(issuer, t))
      && ((HasPrefix(t, TOKEN_FACTORY_PREFIX + "/") && SplitTokenFactoryDenom(t).Ok?
           && SplitTokenFactoryDenom(t).value.0 != issuer) ==> r == Err(InvalidRequest))
  {
    var t := TrimSpace(denomOrSubdenom);
    var r := CanonicalBusinessDenom(env, denomOrSubdenom, issuer);
    if t == [] {
    } else if HasPrefix(t, TOKEN_FACTORY_PREFIX + "/") {
      var split := SplitTokenFactoryDenom(t);
      if split.Ok? && split.value.0 == issuer {
        var v := ValidateTokenFactoryDenom(env, t);
        assert r == (if v.Fail? then Err(v.error) else Ok(t));
      }
    } else if ValidateSubdenom(t).Pass? {
      var v := ValidateTokenFactoryDenom(env, FactoryDenom(issuer, t));
      assert r == (if v.Fail? then Err(v.error) else Ok(FactoryDenom(issuer, t)));
    }
  }

  /** Whatever canonicalisation returns is a factory denom of the given issuer:
      splitting it gives `issuer` back, and for a bare subdenom also the
      trimmed subdenom. */
  lemma CanonicalDenomRoundTrip(env: Env, denomOrSubdenom: string, issuer: string)
    requires CanonicalBusinessDenom(env, denomOrSubdenom, issuer).Ok?
    ensures var d := CanonicalBusinessDenom(env, denomOrSubdenom, issuer).value;
      SplitTokenFactoryDenom(d).Ok? && SplitTokenFactoryDenom(d).value.0 == issuer
    ensures !HasPrefix(TrimSpace(denomOrSubdenom), TOKEN_FACTORY_PREFIX + "/") ==>
      SplitTokenFactoryDenom(CanonicalBusinessDenom(env, denomOrSubdenom, issuer).value)
        == Ok((issuer, TrimSpace(denomOrSubdenom)))
  {
    var t := TrimSpace(denomOrSubdenom);
    var r := CanonicalBusinessDenom(env, denomOrSubdenom, issuer);
    if HasPrefix(t, TOKEN_FACTORY_PREFIX + "/") {
      var split := SplitTokenFactoryDenom(t);
      assert split.Ok? && split.value.0 == issuer && r.value == t;
    } else {
      var full := FactoryDenom(issuer, t);
      assert ValidateSubdenom(t).Pass?;
      assert r.value == full && ValidateTokenFactoryDenom(env, full).Pass?;
      SplitFactoryDenomIssuer(issuer, t);
    }
  }

  /** A subdenom never looks like a full factory denom. */
  lemma SubdenomHasNoFactoryPrefix(t: string)
    requires SubdenomSyntax(t)
    ensures !HasPrefix(t, TOKEN_FACTORY_PREFIX + "/")
  {
    var p := TOKEN_FACTORY_PREFIX + "/";
    assert p[7] == '/';
    if |t| >= 8 {
      assert IsSubdenomChar(t[7]);
      assert t[7] != p[7];
    }
  }

  /** The success direction: a bare subdenom that matches the pattern, and
      whose factory denom under `issuer` validates, becomes that factory
      denom; a full factory denom of `issuer` that validates is kept as
      trimmed. */
  lemma CanonicalBusinessDenomAccepts(env: Env, denomOrSubdenom: string, issuer: string)
    ensures var t := TrimSpace(denomOrSubdenom);
      SubdenomSyntax(t) && ValidateTokenFactoryDenom(env, FactoryDenom(issuer, t)).Pass? ==>
        CanonicalBusinessDenom(env, denomOrSubdenom, issuer) == Ok(FactoryDenom(issuer, t))
    ensures var t := TrimSpace(denomOrSubdenom);
      HasPrefix(t, TOKEN_FACTORY_PREFIX + "/") && SplitTokenFactoryDenom(t).Ok?
      && SplitTokenFactoryDenom(t).value.0 == issuer && ValidateTokenFactoryDenom(env, t).Pass? ==>
        CanonicalBusinessDenom(env, denomOrSubdenom, issuer) == Ok(t)
  {
    var t := TrimSpace(denomOrSubdenom);
    if SubdenomSyntax(t) {
      SubdenomHasNoFactoryPrefix(t);
      assert ValidateSubdenom(t).Pass?;
    }
  }

  /** A trimmed, valid factory denom of `issuer` is its own canonical form. */
  lemma CanonicalOfFactoryDenom(env: Env, d: string, issuer: string)
    requires Trimmed(d) && HasPrefix(d, TOKEN_FACTORY_PREFIX + "/")
    requires SplitTokenFactoryDenom(d).Ok? && SplitTokenFactoryDenom(d).value.0 == issuer
    requires ValidateTokenFactoryDenom(env, d).Pass?
    ensures CanonicalBusinessDenom(env, d, issuer) == Ok(d)
  {
    TrimSpaceNoop(d);
  }

  /** The factory denom of a subdenom that matches the pattern carries the
      factory prefix and no surrounding white space. */
  lemma FactoryDenomOfSubdenomTrimmed(issuer: string, subdenom: string)
    requires SubdenomSyntax(subdenom)
    ensures var d := FactoryDenom(issuer, subdenom);
      Trimmed(d) && HasPrefix(d, TOKEN_FACTORY_PREFIX + "/")
  {
    var d := FactoryDenom(issuer, subdenom);
    assert d[|d| - 1] == subdenom[|subdenom| - 1];
    assert d[..8] == TOKEN_FACTORY_PREFIX + "/";
  }

  /** Canonicalisation is idempotent: a canonical denom canonicalises to
      itself under the same issuer. */
  lemma {:induction false} CanonicalBusinessDenomIdempotent(env: Env, denomOrSubdenom: string, issuer: string)
    requires CanonicalBusinessDenom(env, denomOrSubdenom, issuer).Ok?
    ensures var d := CanonicalBusinessDenom(env, denomOrSubdenom, issuer).value;
      CanonicalBusinessDenom(env, d, issuer) == Ok(d)
  {
    var d := CanonicalBusinessDenom(env, denomOrSubdenom, issuer).value;
    var t := TrimSpace(denomOrSubdenom);
    CanonicalBusinessDenomShape(env, denomOrSubdenom, issuer);
    CanonicalDenomRoundTrip(env, denomOrSubdenom, issuer);
    if HasPrefix(t, TOKEN_FACTORY_PREFIX + "/") {
      assert d == t && Trimmed(t);
    } else {
      assert ValidateSubdenom(t).Pass?;
      FactoryDenomOfSubdenomTrimmed(issuer, t);
    }
    CanonicalOfFactoryDenom(env, d, issuer);
  }

  // ----- lookup by subdenom -----

  /** resolveStoredDenom(creator, denom): the denom itself when it is stored
      or already a factory denom; otherwise `factory/{creator}/{trimmed}` when
      that is stored; otherwise the denom unchanged. */
  function ResolveStoredDenom(tokens: map<string, VerifiedToken>, creator: string, denom: string): (r: string)
    ensures denom in tokens || HasPrefix(denom, TOKEN_FACTORY_PREFIX + "/") ==> r == denom
    ensures r != denom ==> r == FactoryDenom(creator, TrimSpace(denom)) && r in tokens
    ensures r in tokens <==>
      denom in tokens
      || (!HasPrefix(denom, TOKEN_FACTORY_PREFIX + "/") && FactoryDenom(creator, TrimSpace(denom)) in tokens)
  {
    if denom in tokens then denom
    else if HasPrefix(denom, TOKEN_FACTORY_PREFIX + "/") then denom
    else
      var candidate := FactoryDenom(creator, TrimSpace(denom));
      if candidate in tokens then candidate else denom
  }
}
