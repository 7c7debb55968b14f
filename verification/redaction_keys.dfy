/** Which JSON keys the two audit redactors call sensitive. */
module RedactionKeys {

  /** The Unicode tables behind IsLetter, IsDigit and ToLower; the proofs hold for every choice of them. */
  datatype Unicode = Unicode(isLetterOrDigit: char -> bool, toLower: char -> char)

  /** The tables agree with plain lower-case letters. */
  ghost predicate KnowsLowerCase(u: Unicode) {
    forall c :: 'a' <= c <= 'z' ==> u.isLetterOrDigit(c) && u.toLower(c) == c
  }

  function Normalized(u: Unicode, key: string): string {
    if key == "" then ""
    else
      var before, last := Normalized(u, key[..|key| - 1]), key[|key| - 1];
      if u.isLetterOrDigit(last) then before + [u.toLower(last)] else before
  }

  method NormalizeKey(u: Unicode, key: string) returns (builder: string)
    ensures builder == Normalized(u, key)
  {
    builder := "";
    for i := 0 to |key|
      invariant builder == Normalized(u, key[..i])
    {
      assert key[..i + 1][..i] == key[..i];
      if u.isLetterOrDigit(key[i]) {
        builder := builder + [u.toLower(key[i])];
      }
    }
    assert key[..|key|] == key;
  }

  predicate HasSuffix(s: string, suffix: string) {
    |suffix| <= |s| && s[|s| - |suffix|..] == suffix
  }

  /** The endings both redactors look for. */
  predicate EndsAlike(name: string) {
    || HasSuffix(name, "password") || HasSuffix(name, "passphrase") || HasSuffix(name, "secret")
    || HasSuffix(name, "token") || HasSuffix(name, "apikey") || HasSuffix(name, "privatekey")
    || HasSuffix(name, "credential") || HasSuffix(name, "credentials") || HasSuffix(name, "session")
    || HasSuffix(name, "sessionid") || HasSuffix(name, "jwt")
  }

  /** The exact names of the outbound redactor. */
  predicate ListedName(name: string) {
    || name == "password" || name == "passphrase" || name == "secret" || name == "clientsecret"
    || name == "token" || name == "accesstoken" || name == "refreshtoken" || name == "idtoken"
    || name == "apikey" || name == "privatekey" || name == "credential" || name == "credentials"
    || name == "session" || name == "sessionid" || ListedOtherwise(name) || name == "jwt"
  }

  predicate ListedOtherwise(name: string) {
    name == "authorization" || name == "cookie" || name == "setcookie"
  }

  predicate EndsAdded(name: string) {
    HasSuffix(name, "authorization") || HasSuffix(name, "cookie")
  }

  datatype Rule = Outbound | RequestAudit

  predicate Sensitive(u: Unicode, rule: Rule, key: string) {
    var name := Normalized(u, key);
    && name != ""
    && match rule
       case Outbound => ListedName(name) || EndsAlike(name)
       case RequestAudit => EndsAlike(name) || EndsAdded(name)
  }

  lemma EndsInItself(s: string)
    ensures HasSuffix(s, s)
  {
  }

  lemma LongerListedNames()
    ensures HasSuffix("clientsecret", "secret")
    ensures HasSuffix("accesstoken", "token") && HasSuffix("refreshtoken", "token") && HasSuffix("idtoken", "token")
    ensures HasSuffix("setcookie", "cookie")
  {
  }

  /** Every listed name ends in a shared ending, except the three the request rule covers by its own. */
  lemma ListedNamesEnd(name: string)
    requires ListedName(name)
    ensures if ListedOtherwise(name) then EndsAdded(name) else EndsAlike(name)
  {
    EndsInItself(name);
    LongerListedNames();
  }

  lemma SuffixChar(s: string, suffix: string, back: nat)
    requires HasSuffix(s, suffix) && 1 <= back <= |suffix|
    ensures s[|s| - back] == suffix[|suffix| - back]
  {
    assert s[|s| - |suffix|..][|suffix| - back] == s[|s| - back];
  }

  /** Two strings that differ counted from the end cannot end the same name. */
  lemma NotBoth(s: string, a: string, b: string, back: nat)
    requires 1 <= back <= |a| && back <= |b| && a[|a| - back] != b[|b| - back]
    ensures !(HasSuffix(s, a) && HasSuffix(s, b))
  {
    if HasSuffix(s, a) && HasSuffix(s, b) {
      SuffixChar(s, a, back);
      SuffixChar(s, b, back);
    }
  }

  lemma AuthorizationIsNew(s: string)
    requires HasSuffix(s, "authorization")
    ensures !EndsAlike(s)
  {
    var a := "authorization";
    NotBoth(s, a, "password", 1);
    NotBoth(s, a, "passphrase", 1);
    NotBoth(s, a, "secret", 1);
    NotBoth(s, a, "token", 2);
    NotBoth(s, a, "apikey", 1);
    NotBoth(s, a, "privatekey", 1);
    NotBoth(s, a, "credential", 1);
    NotBoth(s, a, "credentials", 1);
    NotBoth(s, a, "session", 4);
    NotBoth(s, a, "sessionid", 1);
    NotBoth(s, a, "jwt", 1);
  }

  lemma CookieIsNew(s: string)
    requires HasSuffix(s, "cookie")
    ensures !EndsAlike(s)
  {
    var a := "cookie";
    NotBoth(s, a, "password", 1);
    NotBoth(s, a, "passphrase", 2);
    NotBoth(s, a, "secret", 1);
    NotBoth(s, a, "token", 1);
    NotBoth(s, a, "apikey", 1);
    NotBoth(s, a, "privatekey", 1);
    NotBoth(s, a, "credential", 1);
    NotBoth(s, a, "credentials", 1);
    NotBoth(s, a, "session", 1);
    NotBoth(s, a, "sessionid", 1);
    NotBoth(s, a, "jwt", 1);
  }

  /**
   Whatever the outbound rule hides the request rule hides too; the request rule hides exactly the further
   names that end in authorization or cookie without being one of the three the outbound rule lists.
   */
  lemma RequestRuleHidesMore(u: Unicode, key: string)
    ensures Sensitive(u, Outbound, key) ==> Sensitive(u, RequestAudit, key)
    ensures var name := Normalized(u, key);
            Sensitive(u, RequestAudit, key) && !Sensitive(u, Outbound, key)
            <==> EndsAdded(name) && !ListedOtherwise(name)
  {
    var name := Normalized(u, key);
    if ListedName(name) {
      ListedNamesEnd(name);
    }
    if HasSuffix(name, "authorization") {
      AuthorizationIsNew(name);
    }
    if HasSuffix(name, "cookie") {
      CookieIsNew(name);
    }
  }

  lemma {:induction false} LowerCaseIsNormal(u: Unicode, key: string)
    requires KnowsLowerCase(u) && forall i :: 0 <= i < |key| ==> 'a' <= key[i] <= 'z'
    ensures Normalized(u, key) == key
  {
    if key == "" {
    } else {
      assert u.isLetterOrDigit(key[|key| - 1]) && u.toLower(key[|key| - 1]) == key[|key| - 1];
      LowerCaseIsNormal(u, key[..|key| - 1]);
    }
  }

  /** The inclusion is strict. */
  lemma OutboundMissesProxyAuthorization(u: Unicode)
    requires KnowsLowerCase(u)
    ensures Sensitive(u, RequestAudit, "proxyauthorization") && !Sensitive(u, Outbound, "proxyauthorization")
  {
    LowerCaseIsNormal(u, "proxyauthorization");
    assert HasSuffix("proxyauthorization", "authorization");
    RequestRuleHidesMore(u, "proxyauthorization");
  }

  // ---- which keys these are, said from the normalized name ----

  lemma {:induction false} NormalizedJoins(u: Unicode, a: string, b: string)
    ensures Normalized(u, a + b) == Normalized(u, a) + Normalized(u, b)
    decreases |b|
  {
    if b == "" {
      assert a + b == a;
    } else {
      var short := b[..|b| - 1];
      assert (a + b)[..|a + b| - 1] == a + short;
      NormalizedJoins(u, a, short);
    }
  }

  /** Character by character: letters and digits are lower-cased, everything else is dropped. */
  lemma NormalizedCharacter(u: Unicode, c: char)
    ensures Normalized(u, [c]) == if u.isLetterOrDigit(c) then [u.toLower(c)] else ""
  {
    assert [c][..0] == "";
  }

  /** The tables agree with plain letters of either case, and drop the hyphen and the underscore. */
  ghost predicate KnowsLetters(u: Unicode) {
    && KnowsLowerCase(u)
    && (forall c :: 'A' <= c <= 'Z' ==> u.isLetterOrDigit(c) && u.toLower(c) == (c as int - 'A' as int + 'a' as int) as char)
    && !u.isLetterOrDigit('-') && !u.isLetterOrDigit('_')
  }

  predicate SharedWord(word: string) {
    || word == "password" || word == "passphrase" || word == "secret" || word == "token" || word == "apikey"
    || word == "privatekey" || word == "credential" || word == "credentials" || word == "session"
    || word == "sessionid" || word == "jwt"
  }

  lemma SuffixOfJoin(before: string, word: string)
    ensures HasSuffix(before + word, word)
  {
  }

  /** Whatever stands before it and however it is spelled, a key that normalizes to one of these words is hidden by both rules. */
  lemma SharedWordsAreSensitive(u: Unicode, key: string, before: string, word: string)
    requires SharedWord(word) && Normalized(u, key) == before + word
    ensures Sensitive(u, Outbound, key) && Sensitive(u, RequestAudit, key)
  {
    SharedWordEndsAlike(before, word);
  }

  lemma SharedWordEndsAlike(before: string, word: string)
    requires SharedWord(word)
    ensures EndsAlike(before + word) && before + word != ""
  {
    SuffixOfJoin(before, word);
  }

  /** So are authorization and cookie by the request rule, and by the outbound rule only on their own or as setcookie. */
  lemma HeaderWordsAreSensitive(u: Unicode, key: string, before: string, word: string)
    requires (word == "authorization" || word == "cookie") && Normalized(u, key) == before + word
    ensures Sensitive(u, RequestAudit, key)
    ensures Sensitive(u, Outbound, key) <==> before == "" || (word == "cookie" && before == "set")
  {
    var name := before + word;
    SuffixOfJoin(before, word);
    RequestRuleHidesMore(u, key);
    JoinedHeaderWord(before, word);
  }

  lemma JoinedHeaderWord(before: string, word: string)
    requires word == "authorization" || word == "cookie"
    ensures ListedOtherwise(before + word) <==> before == "" || (word == "cookie" && before == "set")
  {
    assert "" + word == word;
    assert "set" + "cookie" == "setcookie";
    var name := before + word;
    assert name[|before|..] == word && name[..|before|] == before;
    if ListedOtherwise(name) {
      SuffixChar(name, word, 1);
      if word == "cookie" && name == "setcookie" {
        assert |before| == 3 && before == "setcookie"[..3];
      }
    }
  }

  /** A name that ends in none of the words is left alone by both rules. */
  lemma OtherNamesAreNotSensitive(u: Unicode, rule: Rule, key: string)
    requires !EndsAlike(Normalized(u, key)) && !EndsAdded(Normalized(u, key))
    ensures !Sensitive(u, rule, key)
  {
    var name := Normalized(u, key);
    if ListedName(name) {
      ListedNamesEnd(name);
    }
  }

  lemma CapitalThenLower(u: Unicode, capital: char, rest: string)
    requires KnowsLetters(u) && 'A' <= capital <= 'Z' && forall i :: 0 <= i < |rest| ==> 'a' <= rest[i] <= 'z'
    ensures Normalized(u, [capital] + rest) == [(capital as int - 'A' as int + 'a' as int) as char] + rest
  {
    assert u.isLetterOrDigit(capital);
    NormalizedCharacter(u, capital);
    LowerCaseIsNormal(u, rest);
    NormalizedJoins(u, [capital], rest);
  }

  lemma HyphenIsDropped(u: Unicode, a: string, b: string)
    requires KnowsLetters(u)
    ensures Normalized(u, a + "-" + b) == Normalized(u, a) + Normalized(u, b)
  {
    NormalizedCharacter(u, '-');
    NormalizedJoins(u, a, "-");
    NormalizedJoins(u, a + "-", b);
  }

  lemma MixedCaseName(u: Unicode)
    requires KnowsLetters(u)
    ensures Normalized(u, "Pass-Word") == "password"
  {
    CapitalThenLower(u, 'P', "ass");
    CapitalThenLower(u, 'W', "ord");
    HyphenIsDropped(u, "Pass", "Word");
    assert ['P'] + "ass" == "Pass" && ['W'] + "ord" == "Word";
    assert "Pass" + "-" + "Word" == "Pass-Word";
    assert (['p'] + "ass") + (['w'] + "ord") == "password";
  }

  /** Neither case nor punctuation hides a password key. */
  lemma MixedCaseKeyIsSensitive(u: Unicode)
    requires KnowsLetters(u)
    ensures Sensitive(u, Outbound, "Pass-Word") && Sensitive(u, RequestAudit, "Pass-Word")
  {
    MixedCaseName(u);
    assert "" + "password" == "password";
    SharedWordsAreSensitive(u, "Pass-Word", "", "password");
  }

  lemma EndsOtherwise(name: string)
    requires HasSuffix(name, "me")
    ensures !EndsAlike(name) && !EndsAdded(name)
  {
    var a := "me";
    NotBoth(name, a, "password", 1);
    NotBoth(name, a, "passphrase", 2);
    NotBoth(name, a, "secret", 1);
    NotBoth(name, a, "token", 1);
    NotBoth(name, a, "apikey", 1);
    NotBoth(name, a, "privatekey", 1);
    NotBoth(name, a, "credential", 1);
    NotBoth(name, a, "credentials", 1);
    NotBoth(name, a, "session", 1);
    NotBoth(name, a, "sessionid", 1);
    NotBoth(name, a, "jwt", 1);
    NotBoth(name, a, "authorization", 1);
    NotBoth(name, a, "cookie", 2);
  }

  /** A user name is not a secret. */
  lemma UserNameIsNotSensitive(u: Unicode, rule: Rule)
    requires KnowsLetters(u)
    ensures !Sensitive(u, rule, "username")
  {
    LowerCaseIsNormal(u, "username");
    assert HasSuffix("username", "me");
    EndsOtherwise("username");
    OtherNamesAreNotSensitive(u, rule, "username");
  }
}
