/**
 The Redis keys of one cache namespace, and when their families stay apart.

 Cached bodies, the un-versioned fallback, the identifier counters and the namespace counter all
 live under one prefix, so nothing but the shape of the identifiers keeps them from colliding.
 */
module CacheKeys {

  const TENANT_CHARACTERS: nat := 24

  const NAMESPACE_COUNTER: string := "__generation__"

  /** What a key holds: a body cached under two generations, a fallback body, or a counter. */
  datatype Key =
    | Entry(identifier: string, namespaceGeneration: nat, identifierGeneration: nat)
    | Fallback(identifier: string)
    | IdentifierCounter(identifier: string)
    | NamespaceCounter

  function Digit(n: nat): char
    requires n < 10
  {
    ('0' as int + n) as char
  }

  function Decimal(n: nat): string {
    if n < 10 then [Digit(n)] else Decimal(n / 10) + [Digit(n % 10)]
  }

  /** The part of the key after prefix, namespace and tenant. An empty identifier counts as none. */
  function Name(key: Key): string {
    match key
    case Entry(identifier, n, i) => identifier + ":v" + Decimal(n) + "." + Decimal(i)
    case Fallback(identifier) => identifier
    case IdentifierCounter(identifier) => if identifier == "" then NAMESPACE_COUNTER else identifier + ":generation"
    case NamespaceCounter => NAMESPACE_COUNTER
  }

  function FullName(prefix: string, tenant: string, key: Key): string {
    prefix + ":" + tenant + ":" + Name(key)
  }

  lemma Separated(whole: string, a: string, x: string, separator: char)
    requires whole == a + [separator] + x
    ensures |a| < |whole| && whole[|a|] == separator && whole[..|a|] == a && whole[|a| + 1..] == x
    ensures separator !in a ==> forall i :: 0 <= i < |a| ==> whole[i] != separator
    ensures separator !in x ==> forall i :: |a| < i < |whole| ==> whole[i] != separator
  {
    assert forall i :: |a| < i < |whole| ==> whole[i] == x[i - |a| - 1];
  }

  /** A text splits at its first separator, and at its last, in one way. */
  lemma SplitUnique(a: string, b: string, x: string, y: string, separator: char)
    requires (separator !in a && separator !in b) || (separator !in x && separator !in y)
    requires a + [separator] + x == b + [separator] + y
    ensures a == b && x == y
  {
    var whole := a + [separator] + x;
    Separated(whole, a, x, separator);
    Separated(whole, b, y, separator);
  }

  lemma {:induction false} DecimalDigits(n: nat)
    ensures |Decimal(n)| >= 1 && '.' !in Decimal(n) && ':' !in Decimal(n)
  {
    if n >= 10 {
      DecimalDigits(n / 10);
    }
  }

  function NumberOf(digits: string): int {
    if digits == "" then 0
    else 10 * NumberOf(digits[..|digits| - 1]) + (digits[|digits| - 1] as int - '0' as int)
  }

  /** A decimal reads back as the number it was written from. */
  lemma {:induction false} DecimalReadsBack(n: nat)
    ensures NumberOf(Decimal(n)) == n
  {
    var digits := Decimal(n);
    if n < 10 {
      assert digits[..0] == "";
    } else {
      assert digits[..|digits| - 1] == Decimal(n / 10) && digits[|digits| - 1] == Digit(n % 10);
      DecimalReadsBack(n / 10);
    }
  }

  function EntryTail(key: Key): string
    requires key.Entry?
  {
    ['v'] + (Decimal(key.namespaceGeneration) + ['.'] + Decimal(key.identifierGeneration))
  }

  /** What follows the last colon of a body's or an identifier counter's name. */
  function Tail(key: Key): string {
    match key
    case Entry(_, _, _) => EntryTail(key)
    case IdentifierCounter(_) => "generation"
    case _ => ""
  }

  predicate HasColon(key: Key) {
    key.Entry? || (key.IdentifierCounter? && key.identifier != "")
  }

  lemma TailPlain(key: Key)
    requires HasColon(key)
    ensures ':' !in Tail(key) && Tail(key) != "" && (key.Entry? <==> Tail(key)[0] == 'v')
  {
    if key.Entry? {
      DecimalDigits(key.namespaceGeneration);
      DecimalDigits(key.identifierGeneration);
    }
  }

  lemma Glued(a: string, x: string)
    ensures a + ":" + x == a + [':'] + x && ':' in a + [':'] + x
  {
    assert (a + [':'] + x)[|a|] == ':';
  }

  lemma ColonTail(key: Key)
    requires HasColon(key)
    ensures Name(key) == key.identifier + [':'] + Tail(key) && ':' !in Tail(key)
    ensures ':' in Name(key)
  {
    TailPlain(key);
    Glued(key.identifier, Tail(key));
    if key.Entry? {
      EntryName(key.identifier, Decimal(key.namespaceGeneration), Decimal(key.identifierGeneration));
    } else {
      assert key.identifier + ":generation" == key.identifier + ":" + "generation";
    }
  }

  lemma EntryName(identifier: string, n: string, i: string)
    ensures identifier + ":v" + n + "." + i == identifier + ":" + (['v'] + (n + ['.'] + i))
  {
  }

  lemma TailsApart(k: Key, l: Key)
    requires HasColon(k) && HasColon(l) && Tail(k) == Tail(l) && k.identifier == l.identifier
    ensures k == l
  {
    TailPlain(k);
    TailPlain(l);
    if k.Entry? {
      var tailK := Decimal(k.namespaceGeneration) + ['.'] + Decimal(k.identifierGeneration);
      var tailL := Decimal(l.namespaceGeneration) + ['.'] + Decimal(l.identifierGeneration);
      assert EntryTail(k)[1..] == tailK && EntryTail(l)[1..] == tailL;
      DecimalDigits(k.namespaceGeneration);
      DecimalDigits(l.namespaceGeneration);
      SplitUnique(Decimal(k.namespaceGeneration), Decimal(l.namespaceGeneration),
                  Decimal(k.identifierGeneration), Decimal(l.identifierGeneration), '.');
      DecimalReadsBack(k.namespaceGeneration);
      DecimalReadsBack(l.namespaceGeneration);
      DecimalReadsBack(k.identifierGeneration);
      DecimalReadsBack(l.identifierGeneration);
    }
  }

  /** One key is the un-versioned fallback of an identifier that is the other's very name. */
  predicate FallsOnto(fallback: Key, other: Key) {
    fallback.Fallback? && fallback.identifier == Name(other)
  }

  /** The counter of no identifier is the counter of the namespace. */
  predicate CountersMeet(k: Key, l: Key) {
    k == NamespaceCounter && l == IdentifierCounter("")
  }

  /** Exactly when two different keys of a namespace share a name. */
  lemma FamiliesMeetExactly(k: Key, l: Key)
    requires k != l
    ensures Name(k) == Name(l) <==> FallsOnto(k, l) || FallsOnto(l, k) || CountersMeet(k, l) || CountersMeet(l, k)
  {
    if Name(k) == Name(l) && !k.Fallback? && !l.Fallback? {
      if HasColon(k) {
        ColonTail(k);
      }
      if HasColon(l) {
        ColonTail(l);
      }
      assert ':' !in NAMESPACE_COUNTER;
      if HasColon(k) && HasColon(l) {
        SplitUnique(k.identifier, l.identifier, Tail(k), Tail(l), ':');
        TailsApart(k, l);
      }
    }
  }

  /** Identifiers that are the name of no body and no counter: exactly those whose fallback meets nothing. */
  ghost predicate Plain(identifier: string) {
    identifier != "" && forall key: Key :: !key.Fallback? ==> Name(key) != identifier
  }

  ghost predicate PlainKey(key: Key) {
    key.NamespaceCounter? || Plain(key.identifier)
  }

  /** Over plain identifiers, different keys have different names. */
  lemma NamesApart(k: Key, l: Key)
    requires PlainKey(k) && PlainKey(l) && Name(k) == Name(l)
    ensures k == l
  {
    if k != l {
      FamiliesMeetExactly(k, l);
    }
  }

  /** Without a colon an identifier is plain unless it is empty or the namespace counter's name. */
  lemma PlainWithoutColon(identifier: string)
    requires ':' !in identifier
    ensures Plain(identifier) <==> identifier != "" && identifier != NAMESPACE_COUNTER
  {
    assert Name(NamespaceCounter) == NAMESPACE_COUNTER;
    forall key: Key | HasColon(key) ensures Name(key) != identifier {
      ColonTail(key);
    }
  }

  /** A colon does no harm unless what follows the last one could end a body's or a counter's name. */
  lemma PlainWithColon(base: string, tail: string)
    requires ':' !in tail && tail != "generation" && (tail == "" || tail[0] != 'v')
    ensures Plain(base + [':'] + tail)
  {
    var identifier := base + [':'] + tail;
    assert identifier[|base|] == ':' && ':' !in NAMESPACE_COUNTER;
    forall key: Key | HasColon(key) ensures Name(key) != identifier {
      ColonTail(key);
      if Name(key) == identifier {
        SplitUnique(key.identifier, base, Tail(key), tail, ':');
      }
    }
  }

  /** A keyed digest in hexadecimal. */
  type Digest = string -> string

  function TenantPart(digest: Digest, organization: string): string
    requires |digest(organization)| >= TENANT_CHARACTERS
  {
    digest(organization)[..TENANT_CHARACTERS]
  }

  /** Two organizations share a key exactly when their digests agree in the part kept and the names are equal. */
  lemma TenantsApart(prefix: string, digest: Digest, a: string, b: string, k: Key, l: Key)
    requires |digest(a)| >= TENANT_CHARACTERS && |digest(b)| >= TENANT_CHARACTERS
    ensures FullName(prefix, TenantPart(digest, a), k) == FullName(prefix, TenantPart(digest, b), l)
            <==> TenantPart(digest, a) == TenantPart(digest, b) && Name(k) == Name(l)
  {
    var left, right := FullName(prefix, TenantPart(digest, a), k), FullName(prefix, TenantPart(digest, b), l);
    var from := |prefix| + 1;
    assert left[from..from + TENANT_CHARACTERS] == TenantPart(digest, a);
    assert right[from..from + TENANT_CHARACTERS] == TenantPart(digest, b);
    assert left[from + TENANT_CHARACTERS + 1..] == Name(k) && right[from + TENANT_CHARACTERS + 1..] == Name(l);
  }

  /** The three ways to meet, each at an input. */
  lemma FamiliesCollide()
    ensures Name(Fallback("a:generation")) == Name(IdentifierCounter("a"))
    ensures Name(Fallback("a:v1.2")) == Name(Entry("a", 1, 2)) == "a:v1.2"
    ensures Name(IdentifierCounter("")) == Name(NamespaceCounter)
  {
    assert Decimal(1) == "1" && Decimal(2) == "2";
  }
}
