/** The string keys of the offset store, and when they tell topics, partitions and groups apart. */
module OffsetKeys {

  // ----- decimal numerals

  function Digit(d: nat): char
    requires d < 10
  {
    ['0', '1', '2', '3', '4', '5', '6', '7', '8', '9'][d]
  }

  function Digits(n: nat): (s: string)
    ensures s != [] && '/' !in s && '-' !in s
    decreases n
  {
    if n < 10 then [Digit(n)] else Digits(n / 10) + [Digit(n % 10)]
  }

  function Decimal(n: int): (s: string)
    ensures s != [] && '/' !in s
    ensures n < 0 <==> s[0] == '-'
  {
    if n < 0 then "-" + Digits(-n) else Digits(n)
  }

  /** The number a string of digits stands for. */
  function Value(s: string): nat {
    if s == [] then 0 else Value(s[..|s| - 1]) * 10 + (if '0' <= s[|s| - 1] <= '9' then (s[|s| - 1] - '0') as nat else 0)
  }

  /** A numeral reads as its number, and has no leading zero. */
  lemma {:induction false} DigitsRead(n: nat)
    ensures Value(Digits(n)) == n && (forall c | c in Digits(n) :: '0' <= c <= '9') && (Digits(n)[0] == '0' ==> n == 0)
  {
    if n >= 10 {
      DigitsRead(n / 10);
      assert Digits(n)[..|Digits(n)| - 1] == Digits(n / 10);
    } else {
      assert Digits(n)[..0] == [];
    }
  }

  lemma {:induction false} DigitsAreUnique(a: nat, b: nat)
    requires Digits(a) == Digits(b)
    ensures a == b
  {
    var s := Digits(a);
    if a >= 10 && b >= 10 {
      assert s[..|s| - 1] == Digits(a / 10) == Digits(b / 10);
      DigitsAreUnique(a / 10, b / 10);
      assert s[|s| - 1] == Digit(a % 10) == Digit(b % 10);
    }
  }

  lemma DecimalIsUnique(a: int, b: int)
    requires Decimal(a) == Decimal(b)
    ensures a == b
  {
    if a < 0 && b < 0 {
      assert Decimal(a)[1..] == Digits(-a) && Decimal(b)[1..] == Digits(-b);
      DigitsAreUnique(-a, -b);
    } else {
      DigitsAreUnique(a, b);
    }
  }

  // ----- keys

  /** What all keys of one topic and partition start with. */
  function Prefix(topic: string, partition: int): string {
    topic + "/" + Decimal(partition) + "/"
  }

  function Key(topic: string, partition: int, group: string): string {
    Prefix(topic, partition) + group
  }

  lemma DecimalsSeparate(a: string, b: string, x: string, y: string)
    requires '/' !in a && '/' !in b && a + "/" + x == b + "/" + y
    ensures a == b && x == y
  {
    var s := a + "/" + x;
    assert s[|a|] == '/' && s[|b|] == '/';
    assert forall i | 0 <= i < |a| :: s[i] == a[i];
    assert forall i | 0 <= i < |b| :: s[i] == b[i];
    assert s[..|a|] == a && s[..|b|] == b;
    assert s[|a| + 1..] == x && s[|b| + 1..] == y;
  }

  /** Within one topic the key determines partition and group. */
  lemma KeyIsUnique(t: string, p: int, g: string, p': int, g': string)
    requires Key(t, p, g) == Key(t, p', g')
    ensures p == p' && g == g'
  {
    var k := Key(t, p, g);
    assert k[|t| + 1..] == Decimal(p) + "/" + g == Decimal(p') + "/" + g';
    DecimalsSeparate(Decimal(p), Decimal(p'), g, g');
    DecimalIsUnique(p, p');
  }

  // ----- when two topics share keys

  /** After the name of the shorter topic, the longer one has a segment that reads as a partition number. */
  ghost predicate Confusable(short: string, long: string) {
    exists p: int :: Prefix(short, p) <= long + "/"
  }

  ghost predicate Collide(t: string, t': string) {
    exists p: int, g: string, p': int, g': string :: Key(t, p, g) == Key(t', p', g')
  }

  lemma ConfusableCollide(t: string, t': string)
    requires Confusable(t, t')
    ensures Collide(t, t')
  {
    var p: int :| Prefix(t, p) <= t' + "/";
    var k := Key(t', 0, "");
    assert t' + "/" <= k;
    assert k == Key(t, p, k[|Prefix(t, p)|..]);
  }

  /** A key of both topics makes the longer name confusable. */
  lemma SharedKeyConfuses(t: string, p: int, g: string, t': string, p': int, g': string)
    requires Key(t, p, g) == Key(t', p', g') && |t| < |t'|
    ensures Confusable(t, t')
  {
    var k, a, b := Key(t, p, g), Prefix(t, p), t' + "/";
    assert a <= k && b <= k && k[|t'|] == '/';
    forall i: nat | |t| < i <= |t| + |Decimal(p)|
      ensures i < |k| && k[i] != '/'
    {
      NumberHasNoSlash(t, p, g, i);
    }
    assert a == k[..|a|] && b == k[..|b|];
  }

  /** Between the slash after the topic and the next one a key has the partition number. */
  lemma NumberHasNoSlash(t: string, p: int, g: string, i: nat)
    requires |t| < i <= |t| + |Decimal(p)|
    ensures i < |Key(t, p, g)| && Key(t, p, g)[i] != '/'
  {
    assert Key(t, p, g)[i] == Decimal(p)[i - |t| - 1];
  }

  /** Two topics share a key exactly when one name is confusable with the other. */
  lemma CollideIff(t: string, t': string)
    requires t != t'
    ensures Collide(t, t') <==> Confusable(t, t') || Confusable(t', t)
  {
    if Collide(t, t') {
      var p: int, g: string, p': int, g': string :| Key(t, p, g) == Key(t', p', g');
      var k := Key(t, p, g);
      assert k[..|t|] == t && k[..|t'|] == t';
      if |t| < |t'| {
        SharedKeyConfuses(t, p, g, t', p', g');
      } else {
        SharedKeyConfuses(t', p', g', t, p, g);
      }
    }
    if Confusable(t, t') {
      ConfusableCollide(t, t');
    }
    if Confusable(t', t) {
      ConfusableCollide(t', t);
      var p: int, g: string, p': int, g': string :| Key(t', p, g) == Key(t, p', g');
      assert Key(t, p', g') == Key(t', p, g);
    }
  }

  /** Only a name with a slash in it is confusable with a shorter one. */
  lemma ConfusableHasSlash(t: string, t': string)
    requires Confusable(t, t')
    ensures '/' in t'
  {
    var p: int :| Prefix(t, p) <= t' + "/";
    assert t'[|t|] == Prefix(t, p)[|t|] == '/';
  }

  /** The keys of m that start with the given prefix. */
  function WithPrefix(m: map<string, int>, prefix: string): set<string> {
    set k | k in m && prefix <= k
  }

  /** The prefix scan finds a key exactly when some group of the scanned topic and partition has that key. */
  lemma ScanFinds(topic: string, partition: int, key: string)
    ensures Prefix(topic, partition) <= key <==> exists g: string :: key == Key(topic, partition, g)
  {
    var pre := Prefix(topic, partition);
    if pre <= key {
      assert key == Key(topic, partition, key[|pre|..]);
    }
  }

  /** Among topics that are not confusable the scan selects the groups of one topic and partition and no others. */
  lemma ScanIsExact(topic: string, partition: int, t: string, p: int, g: string)
    requires t != topic ==> !Confusable(t, topic) && !Confusable(topic, t)
    ensures Prefix(topic, partition) <= Key(t, p, g) <==> t == topic && p == partition
  {
    if Prefix(topic, partition) <= Key(t, p, g) {
      ScanFinds(topic, partition, Key(t, p, g));
      var g': string :| Key(t, p, g) == Key(topic, partition, g');
      if t == topic {
        KeyIsUnique(t, p, g, partition, g');
      } else {
        CollideIff(t, topic);
      }
    }
  }

  /** Topics named "a" and "a/1" do share a key. */
  lemma SlashesCollide()
    ensures Key("a", 1, "2/g") == Key("a/1", 2, "g")
  {
    assert Digits(1) == "1" && Digits(2) == "2";
  }
}
