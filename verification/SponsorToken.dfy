/**
 Sponsor tokens: a canonical capability followed by a signature over it. The parser
 inverts the printer exactly while both strings fit their two-byte lengths, and
 whatever it parses prints back to the bytes it consumed.
 */
module SponsorToken {
  import opened Prelude

  const SIG_LEN: nat := 64

  /** Strings are byte strings the UTF-8 check accepts; `sign` and `verify` are the
      authority's key pair. */
  datatype Authority = Authority(
    utf8: Bytes -> bool,
    sign: Bytes -> Bytes,
    verify: (Bytes, Bytes) -> bool)

  datatype Capability = Capability(scope: Bytes, subject: Bytes, notAfter: u64)

  datatype AuthzError = Malformed | BadSignature | WrongScope | Expired | Denied

  predicate IsText(k: Authority, cap: Capability) {
    k.utf8(cap.scope) && k.utf8(cap.subject)
  }

  predicate FitsLengths(cap: Capability) {
    |cap.scope| <= MAX_U16 && |cap.subject| <= MAX_U16
  }

  // ---- Printer and parser ---------------------------------------------------

  /** A string under its two-byte length, which truncates. */
  function StringBytes(s: Bytes): Bytes {
    LE16(|s|) + s
  }

  function Canonical(cap: Capability): Bytes {
    StringBytes(cap.scope) + StringBytes(cap.subject) + LE64(cap.notAfter)
  }

  /** Reads a length-prefixed string at `i`; returns it and where it ends. */
  function ReadString(k: Authority, token: Bytes, i: nat): (r: Result<(Bytes, nat), AuthzError>)
    requires i <= |token|
    ensures r.Ok? ==> i + 2 <= r.value.1 <= |token|
  {
    if i + 2 > |token| then Err(Malformed)
    else
      var n := ReadU16(token[i..i + 2]);
      if i + 2 + n > |token| then Err(Malformed)
      else
        var s := token[i + 2..i + 2 + n];
        if k.utf8(s) then Ok((s, i + 2 + n)) else Err(Malformed)
  }

  /** The capability at the front of a token, and where the signature begins. */
  function Parse(k: Authority, token: Bytes): (r: Result<(Capability, nat), AuthzError>)
    ensures r.Ok? ==> r.value.1 <= |token|
  {
    var (scope, i) :- ReadString(k, token, 0);
    var (subject, j) :- ReadString(k, token, i);
    if j + 8 > |token| then Err(Malformed)
    else Ok((Capability(scope, subject, ReadU64(token[j..j + 8])), j + 8))
  }

  method Print(cap: Capability) returns (b: Bytes)
    ensures b == Canonical(cap)
  {
    b := LE16(|cap.scope|);
    b := b + cap.scope;
    b := b + LE16(|cap.subject|);
    b := b + cap.subject;
    b := b + LE64(cap.notAfter);
    assert b == Canonical(cap);
  }

  /** The parser's moving cursor. */
  method ParseToken(k: Authority, token: Bytes) returns (r: Result<(Capability, nat), AuthzError>)
    ensures r == Parse(k, token)
  {
    var i := 0;
    if i + 2 > |token| {
      return Err(Malformed);
    }
    var scopeLen := ReadU16(token[i..i + 2]);
    i := i + 2;
    var scopeStart := i;
    if i + scopeLen > |token| {
      return Err(Malformed);
    }
    i := i + scopeLen;
    var scope := token[scopeStart..i];
    if !k.utf8(scope) {
      return Err(Malformed);
    }
    if i + 2 > |token| {
      return Err(Malformed);
    }
    var subjectLen := ReadU16(token[i..i + 2]);
    i := i + 2;
    var subjectStart := i;
    if i + subjectLen > |token| {
      return Err(Malformed);
    }
    i := i + subjectLen;
    var subject := token[subjectStart..i];
    if !k.utf8(subject) {
      return Err(Malformed);
    }
    if i + 8 > |token| {
      return Err(Malformed);
    }
    r := Ok((Capability(scope, subject, ReadU64(token[i..i + 8])), i + 8));
  }

  // ---- Inverses -------------------------------------------------------------

  /** A printed string is read back as itself exactly when its length fits. */
  lemma StringReadBackExact(k: Authority, before: Bytes, s: Bytes, after: Bytes)
    requires k.utf8(s)
    ensures ReadString(k, before + StringBytes(s) + after, |before|) == Ok((s, |before| + 2 + |s|)) <==> |s| <= MAX_U16
    ensures |s| > MAX_U16 ==>
      var r := ReadString(k, before + StringBytes(s) + after, |before|); r.Err? || r.value.0 != s
  {
    var token, i := before + StringBytes(s) + after, |before|;
    assert token[i..i + 2] == LE16(|s|);
    ReadWrite16(|s|);
    if |s| <= MAX_U16 {
      assert token == before + LE16(|s|) + s + after;
      assert token[i + 2..i + 2 + |s|] == s;
    }
  }

  /** Parsing inverts printing, whatever follows, exactly when both strings fit. */
  lemma ParsePrintExact(k: Authority, cap: Capability, suffix: Bytes)
    requires IsText(k, cap)
    ensures Parse(k, Canonical(cap) + suffix) == Ok((cap, |Canonical(cap)|)) <==> FitsLengths(cap)
  {
    CanonicalParts(cap, suffix);
    StringReadBackExact(k, [], cap.scope, StringBytes(cap.subject) + LE64(cap.notAfter) + suffix);
    if |cap.scope| <= MAX_U16 {
      StringReadBackExact(k, StringBytes(cap.scope), cap.subject, LE64(cap.notAfter) + suffix);
      ReadWrite64(cap.notAfter);
    }
  }

  lemma CanonicalParts(cap: Capability, suffix: Bytes)
    ensures var token, front := Canonical(cap) + suffix, StringBytes(cap.scope);
      var j := |front| + 2 + |cap.subject|;
      && token == [] + front + (StringBytes(cap.subject) + LE64(cap.notAfter) + suffix)
      && token == front + StringBytes(cap.subject) + (LE64(cap.notAfter) + suffix)
      && |Canonical(cap)| == j + 8 && token[j..j + 8] == LE64(cap.notAfter)
  {
    var front := StringBytes(cap.scope) + StringBytes(cap.subject);
    assert Canonical(cap) + suffix == front + (LE64(cap.notAfter) + suffix);
    assert (Canonical(cap) + suffix)[|front|..|front| + 8] == LE64(cap.notAfter);
  }

  lemma ReadStringReprints(k: Authority, token: Bytes, i: nat)
    requires i <= |token| && ReadString(k, token, i).Ok?
    ensures var (s, j) := ReadString(k, token, i).value;
      StringBytes(s) == token[i..j] && |s| <= MAX_U16 && k.utf8(s)
  {
    WriteRead16(token[i..i + 2]);
    var (s, j) := ReadString(k, token, i).value;
    assert token[i..j] == token[i..i + 2] + s;
  }

  /** Whatever parses is printed back to the bytes that were consumed. */
  lemma PrintParse(k: Authority, token: Bytes)
    requires Parse(k, token).Ok?
    ensures var (cap, n) := Parse(k, token).value;
      Canonical(cap) == token[..n] && IsText(k, cap) && FitsLengths(cap)
  {
    var (scope, i) := ReadString(k, token, 0).value;
    var (subject, j) := ReadString(k, token, i).value;
    ReadStringReprints(k, token, 0);
    ReadStringReprints(k, token, i);
    WriteRead64(token[j..j + 8]);
    assert token[..j + 8] == token[0..i] + token[i..j] + token[j..j + 8];
  }

  /** No capability's printed form is the beginning of another's. */
  lemma CanonicalPrefixFree(k: Authority, a: Capability, b: Capability, suffix: Bytes, other: Bytes)
    requires IsText(k, a) && IsText(k, b) && FitsLengths(a) && FitsLengths(b)
    requires Canonical(a) + suffix == Canonical(b) + other
    ensures a == b && suffix == other
  {
    ParsePrintExact(k, a, suffix);
    ParsePrintExact(k, b, other);
    assert suffix == (Canonical(a) + suffix)[|Canonical(a)|..];
    assert other == (Canonical(b) + other)[|Canonical(b)|..];
  }

  // ---- Issue and authorize --------------------------------------------------

  function Issue(k: Authority, cap: Capability): Bytes {
    Canonical(cap) + k.sign(Canonical(cap))
  }

  function Authorize(k: Authority, token: Bytes, now: u64, requiredScope: Bytes): Result<Capability, AuthzError> {
    var (cap, at) :- Parse(k, token);
    if at + SIG_LEN > |token| then Err(Malformed)
    else if !k.verify(token[..at], token[at..at + SIG_LEN]) then Err(BadSignature)
    else if cap.scope != requiredScope then Err(WrongScope)
    else if now > cap.notAfter then Err(Expired)
    else Ok(cap)
  }

  /** A token is accepted exactly when it is the canonical form of the capability
      returned, a signature over that form, and anything at all; the scope is the
      required one and the time not past. */
  lemma AuthorizeExact(k: Authority, token: Bytes, now: u64, requiredScope: Bytes, cap: Capability)
    ensures Authorize(k, token, now, requiredScope) == Ok(cap) <==>
      (&& IsText(k, cap) && FitsLengths(cap)
       && cap.scope == requiredScope && now <= cap.notAfter
       && SignedToken(k, token, cap))
  {
    if Authorize(k, token, now, requiredScope) == Ok(cap) {
      PrintParse(k, token);
      var at := Parse(k, token).value.1;
      assert token[..at] == Canonical(cap) && at == |Canonical(cap)|;
    }
    if IsText(k, cap) && FitsLengths(cap) && SignedToken(k, token, cap) {
      var n := |Canonical(cap)|;
      assert token == Canonical(cap) + token[n..];
      ParsePrintExact(k, cap, token[n..]);
    }
  }

  predicate SignedToken(k: Authority, token: Bytes, cap: Capability) {
    var n := |Canonical(cap)|;
    && n + SIG_LEN <= |token|
    && token[..n] == Canonical(cap)
    && k.verify(Canonical(cap), token[n..n + SIG_LEN])
  }

  /** Every token the authority issues for strings that fit is accepted until it
      expires, for its own scope, with any bytes after it. */
  lemma IssuedTokenAccepted(k: Authority, cap: Capability, now: u64, suffix: Bytes)
    requires IsText(k, cap) && FitsLengths(cap) && now <= cap.notAfter
    requires |k.sign(Canonical(cap))| == SIG_LEN
    requires k.verify(Canonical(cap), k.sign(Canonical(cap)))
    ensures Authorize(k, Issue(k, cap) + suffix, now, cap.scope) == Ok(cap)
  {
    var token, n := Issue(k, cap) + suffix, |Canonical(cap)|;
    assert token[..n] == Canonical(cap) && token[n..n + SIG_LEN] == k.sign(Canonical(cap));
    AuthorizeExact(k, token, now, cap.scope, cap);
  }

  // ---- Refusals -------------------------------------------------------------

  /** How a token is refused, in the order it is checked. */
  lemma AuthorizeRefusals(k: Authority, token: Bytes, now: u64, requiredScope: Bytes)
    ensures Parse(k, token).Err? ==> Parse(k, token) == Err(Malformed)
    ensures
      var verdict := Authorize(k, token, now, requiredScope);
      if Parse(k, token).Err? then verdict == Err(Malformed)
      else
        var (cap, at) := Parse(k, token).value;
        if |token| < at + 64 then verdict == Err(Malformed)
        else if !k.verify(token[..at], token[at..at + 64]) then verdict == Err(BadSignature)
        else if cap.scope != requiredScope then verdict == Err(WrongScope)
        else if cap.notAfter < now then verdict == Err(Expired)
        else verdict == Ok(cap)
  {
  }
}
