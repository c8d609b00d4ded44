/**
  The recursive redactor (redaction.py) that every audit record passes through.
  Case folding is an arbitrary function on strings.
*/
module Redaction {
  datatype Value =
    | Null
    | Flag(flag: bool)
    | Number(number: real)
    | Text(text: string)
    | Items(items: seq<Value>)
    | Entries(entries: seq<Entry>)
    | Other(rendered: string)   // any other object, by its string form

  /** Keys are given by their string form, so two of them may coincide. */
  datatype Entry = Entry(key: string, value: Value)

  const MAX_DEPTH := 6
  const MAX_ENTRIES := 50
  const MAX_TEXT := 500
  const MAX_KEY := 100

  const TRUNCATED := Text("[TRUNCATED]")
  const REDACTED := Text("[REDACTED]")

  const SENSITIVE_PARTS: seq<string> := [
    "password", "password_hash", "temporary_password", "secret", "token", "token_hash",
    "csrf", "cookie", "authorization", "otp", "totp", "recovery_code", "session"
  ]

  function Underscored(s: string): string {
    seq(|s|, i requires 0 <= i < |s| => if s[i] == '-' then '_' else s[i])
  }

  predicate OccursAt(s: string, part: string, i: nat) {
    i + |part| <= |s| && s[i..i + |part|] == part
  }

  predicate Contains(s: string, part: string) {
    exists i :: 0 <= i <= |s| && OccursAt(s, part, i)
  }

  predicate Sensitive(fold: string -> string, key: string) {
    exists i :: 0 <= i < |SENSITIVE_PARTS| && Contains(Underscored(fold(key)), SENSITIVE_PARTS[i])
  }

  function Head<T>(s: seq<T>, n: nat): (r: seq<T>)
    ensures |r| <= n && (|s| <= n ==> r == s)
  {
    if |s| <= n then s else s[..n]
  }

  /** The position of `key`, or the length if it is absent. */
  function Find(entries: seq<Entry>, key: string): (r: nat)
    ensures r <= |entries|
    ensures r < |entries| ==> entries[r].key == key
    ensures forall i :: 0 <= i < r ==> entries[i].key != key
  {
    if entries == [] then 0
    else if entries[0].key == key then 0
    else
      var r := Find(entries[1..], key);
      assert forall i :: 1 <= i < 1 + r ==> entries[i] == entries[1..][i - 1];
      1 + r
  }

  /** Assigning to a dictionary: a known key keeps its place, a new one goes last. */
  function Assign(entries: seq<Entry>, key: string, value: Value): seq<Entry> {
    var i := Find(entries, key);
    if i < |entries| then entries[i := Entry(key, value)] else entries + [Entry(key, value)]
  }

  function Redact(fold: string -> string, v: Value, depth: nat): Value
    decreases v, 1
  {
    if depth > MAX_DEPTH then TRUNCATED
    else
      match v
      case Entries(entries) => Entries(RedactEntries(fold, Head(entries, MAX_ENTRIES), depth + 1))
      case Items(items) => Items(RedactItems(fold, Head(items, MAX_ENTRIES), depth + 1))
      case Text(text) => Text(Head(text, MAX_TEXT))
      case Other(rendered) => Text(Head(rendered, MAX_TEXT))
      case _ => v
  }

  function RedactItems(fold: string -> string, items: seq<Value>, depth: nat): (r: seq<Value>)
    ensures |r| == |items|
    decreases items, 0
  {
    if items == [] then []
    else RedactItems(fold, items[..|items| - 1], depth) + [Redact(fold, items[|items| - 1], depth)]
  }

  function RedactEntries(fold: string -> string, entries: seq<Entry>, depth: nat): seq<Entry>
    decreases entries, 0
  {
    if entries == [] then []
    else
      var last := entries[|entries| - 1];
      var key := Head(last.key, MAX_KEY);
      Assign(RedactEntries(fold, entries[..|entries| - 1], depth), key,
             if Sensitive(fold, key) then REDACTED else Redact(fold, last.value, depth))
  }

  /** The recursion with its loops over a container's first fifty members. */
  method RedactValue(fold: string -> string, v: Value, depth: nat) returns (r: Value)
    ensures r == Redact(fold, v, depth)
    decreases v
  {
    hide Assign, Sensitive, Find;
    if depth > MAX_DEPTH {
      return TRUNCATED;
    }
    match v
    case Entries(all) =>
      var entries, result := Head(all, MAX_ENTRIES), [];
      for i := 0 to |entries|
        invariant result == RedactEntries(fold, entries[..i], depth + 1)
      {
        assert entries[..i + 1][..i] == entries[..i];
        var key := Head(entries[i].key, MAX_KEY);
        var value := REDACTED;
        if !Sensitive(fold, key) {
          value := RedactValue(fold, entries[i].value, depth + 1);
        }
        result := Assign(result, key, value);
      }
      assert entries[..|entries|] == entries;
      r := Entries(result);
    case Items(all) =>
      var items, result := Head(all, MAX_ENTRIES), [];
      for i := 0 to |items|
        invariant result == RedactItems(fold, items[..i], depth + 1)
      {
        assert items[..i + 1][..i] == items[..i];
        var item := RedactValue(fold, items[i], depth + 1);
        result := result + [item];
      }
      assert items[..|items|] == items;
      r := Items(result);
    case Text(text) => r := Text(Head(text, MAX_TEXT));
    case Other(rendered) => r := Text(Head(rendered, MAX_TEXT));
    case _ => r := v;
  }

  // ---- what redacted values look like ----

  /**
    Within every bound, and with nothing but the marker under a sensitive key,
    at this depth and below.
  */
  ghost predicate Clean(fold: string -> string, v: Value, depth: nat)
    decreases v, 1
  {
    if depth > 6 then v == Text("[TRUNCATED]")
    else
      match v
      case Entries(entries) => |entries| <= 50 && CleanEntries(fold, entries, depth + 1)
      case Items(items) => |items| <= 50 && CleanItems(fold, items, depth + 1)
      case Text(text) => |text| <= 500
      case Other(_) => false
      case _ => true
  }

  ghost predicate CleanItems(fold: string -> string, items: seq<Value>, depth: nat)
    decreases items, 0
  {
    forall i :: 0 <= i < |items| ==> Clean(fold, items[i], depth)
  }

  ghost predicate CleanEntry(fold: string -> string, e: Entry, depth: nat)
    decreases e, 2
  {
    |e.key| <= 100 && if Sensitive(fold, e.key) then e.value == Text("[REDACTED]") else Clean(fold, e.value, depth)
  }

  ghost predicate CleanEntries(fold: string -> string, entries: seq<Entry>, depth: nat)
    decreases entries, 0
  {
    && (forall i, j :: 0 <= i < j < |entries| ==> entries[i].key != entries[j].key)
    && (forall i :: 0 <= i < |entries| ==> CleanEntry(fold, entries[i], depth))
  }

  lemma {:induction false} RedactedIsClean(fold: string -> string, v: Value, depth: nat)
    ensures Clean(fold, Redact(fold, v, depth), depth)
    decreases v, 1
  {
    if depth <= MAX_DEPTH {
      match v
      case Entries(entries) => RedactedEntriesAreClean(fold, Head(entries, MAX_ENTRIES), depth + 1);
      case Items(items) => RedactedItemsAreClean(fold, Head(items, MAX_ENTRIES), depth + 1);
      case _ =>
    }
  }

  lemma {:induction false} RedactedItemsAreClean(fold: string -> string, items: seq<Value>, depth: nat)
    ensures CleanItems(fold, RedactItems(fold, items, depth), depth)
    decreases items, 0
  {
    if items != [] {
      RedactedItemsAreClean(fold, items[..|items| - 1], depth);
      RedactedIsClean(fold, items[|items| - 1], depth);
    }
  }

  lemma AssignKeepsClean(fold: string -> string, entries: seq<Entry>, e: Entry, depth: nat)
    requires CleanEntries(fold, entries, depth) && CleanEntry(fold, e, depth)
    ensures CleanEntries(fold, Assign(entries, e.key, e.value), depth) && |Assign(entries, e.key, e.value)| <= |entries| + 1
  {
    hide CleanEntry;
    var i, after := Find(entries, e.key), Assign(entries, e.key, e.value);
    assert Entry(e.key, e.value) == e;
    if i < |entries| { assert after == entries[i := e]; } else { assert after == entries + [e]; }
  }

  lemma {:induction false} RedactedEntriesAreClean(fold: string -> string, entries: seq<Entry>, depth: nat)
    ensures CleanEntries(fold, RedactEntries(fold, entries, depth), depth) && |RedactEntries(fold, entries, depth)| <= |entries|
    decreases entries, 0
  {
    if entries != [] {
      var front, last := entries[..|entries| - 1], entries[|entries| - 1];
      RedactedEntriesAreClean(fold, front, depth);
      RedactedIsClean(fold, last.value, depth);
      var key := Head(last.key, MAX_KEY);
      var e := Entry(key, if Sensitive(fold, key) then REDACTED else Redact(fold, last.value, depth));
      AssignKeepsClean(fold, RedactEntries(fold, front, depth), e, depth);
    }
  }

  /** A clean value is left as it is. */
  lemma {:induction false} CleanIsFixed(fold: string -> string, v: Value, depth: nat)
    requires Clean(fold, v, depth)
    ensures Redact(fold, v, depth) == v
    decreases v, 1
  {
    if depth <= MAX_DEPTH {
      match v
      case Entries(entries) => CleanEntriesAreFixed(fold, entries, depth + 1);
      case Items(items) => CleanItemsAreFixed(fold, items, depth + 1);
      case _ =>
    }
  }

  lemma {:induction false} CleanItemsAreFixed(fold: string -> string, items: seq<Value>, depth: nat)
    requires CleanItems(fold, items, depth)
    ensures RedactItems(fold, items, depth) == items
    decreases items, 0
  {
    if items != [] {
      CleanItemsAreFixed(fold, items[..|items| - 1], depth);
      CleanIsFixed(fold, items[|items| - 1], depth);
    }
  }

  lemma {:induction false} CleanEntriesAreFixed(fold: string -> string, entries: seq<Entry>, depth: nat)
    requires CleanEntries(fold, entries, depth)
    ensures RedactEntries(fold, entries, depth) == entries
    decreases entries, 0
  {
    hide Redact, Clean, Sensitive;
    if entries != [] {
      var front, last := entries[..|entries| - 1], entries[|entries| - 1];
      CleanEntriesAreFixed(fold, front, depth);
      assert CleanEntry(fold, last, depth);
      if !Sensitive(fold, last.key) { CleanIsFixed(fold, last.value, depth); }
      assert Find(front, last.key) == |front|;
      assert entries == front + [last];
    }
  }

  /** Redacting twice is redacting once. */
  lemma RedactionIsIdempotent(fold: string -> string, v: Value, depth: nat)
    ensures Redact(fold, Redact(fold, v, depth), depth) == Redact(fold, v, depth)
  {
    RedactedIsClean(fold, v, depth);
    CleanIsFixed(fold, Redact(fold, v, depth), depth);
  }

  // ---- which keys are masked ----

  /** The parts that make a key sensitive (rules/sensitive_keys.json). */
  predicate SecretPart(part: string) {
    part in {"password", "password_hash", "temporary_password", "secret", "token", "token_hash",
             "csrf", "cookie", "authorization", "otp", "totp", "recovery_code", "session"}
  }

  /** `to` is `from` with every '-' replaced by '_'. */
  predicate Normalized(from: string, to: string) {
    |to| == |from| && forall i :: 0 <= i < |to| ==> to[i] == if from[i] == '-' then '_' else from[i]
  }

  /** A sensitive part stands somewhere in the text. */
  ghost predicate HoldsSecret(text: string) {
    exists a: string, part: string, b: string :: SecretPart(part) && text == a + part + b
  }

  lemma ContainsIsSplit(text: string, part: string)
    ensures Contains(text, part) <==> exists a: string, b: string :: text == a + part + b
  {
    if Contains(text, part) {
      var i :| 0 <= i <= |text| && OccursAt(text, part, i);
      assert text == text[..i] + part + text[i + |part|..];
    }
    if a: string, b: string :| text == a + part + b {
      assert OccursAt(text, part, |a|);
    }
  }

  lemma PartsAreListed(part: string)
    ensures SecretPart(part) <==> exists i :: 0 <= i < |SENSITIVE_PARTS| && SENSITIVE_PARTS[i] == part
  {
    if SecretPart(part) {
      var p := SENSITIVE_PARTS;
      assert p[0] == "password" && p[1] == "password_hash" && p[2] == "temporary_password" && p[3] == "secret" && p[4] == "token"
        && p[5] == "token_hash" && p[6] == "csrf" && p[7] == "cookie" && p[8] == "authorization" && p[9] == "otp" && p[10] == "totp"
        && p[11] == "recovery_code" && p[12] == "session";
    }
  }

  lemma SensitiveMeansSecret(fold: string -> string, key: string, normalized: string)
    requires Normalized(fold(key), normalized)
    ensures Sensitive(fold, key) <==> HoldsSecret(normalized)
  {
    hide Contains, SecretPart;
    assert normalized == Underscored(fold(key));
    if Sensitive(fold, key) {
      var i :| 0 <= i < |SENSITIVE_PARTS| && Contains(normalized, SENSITIVE_PARTS[i]);
      PartsAreListed(SENSITIVE_PARTS[i]);
      ContainsIsSplit(normalized, SENSITIVE_PARTS[i]);
    }
    if a: string, part: string, b: string :| SecretPart(part) && normalized == a + part + b {
      PartsAreListed(part);
      ContainsIsSplit(normalized, part);
    }
  }

  /** What a dictionary holds under `key`. */
  function Under(entries: seq<Entry>, key: string): Value
    requires exists i :: 0 <= i < |entries| && entries[i].key == key
  {
    entries[Find(entries, key)].value
  }

  lemma AssignedIsFound(entries: seq<Entry>, key: string, value: Value, other: string)
    ensures var after := Assign(entries, key, value);
            && Find(after, key) < |after| && after[Find(after, key)].value == value
            && (other != key ==>
                  && (Find(after, other) < |after| <==> Find(entries, other) < |entries|)
                  && (Find(entries, other) < |entries| ==> after[Find(after, other)] == entries[Find(entries, other)]))
  {
    var i, after := Find(entries, key), Assign(entries, key, value);
    assert after[i] == Entry(key, value) && Find(after, key) == i;
    if other != key {
      var j := Find(entries, other);
      if j < |entries| { assert after[j] == entries[j]; }
      assert forall m :: 0 <= m < j ==> after[m].key != other;
      assert j == |entries| ==> Find(after, other) == |after|;
    }
  }

  /** The last entry written under a clipped key is the one that stays. */
  lemma {:induction false} LastEntryStays(fold: string -> string, entries: seq<Entry>, depth: nat, i: nat)
    requires i < |entries|
    requires forall j :: i < j < |entries| ==> Head(entries[j].key, MAX_KEY) != Head(entries[i].key, MAX_KEY)
    ensures var (out, key) := (RedactEntries(fold, entries, depth), Head(entries[i].key, MAX_KEY));
            && Find(out, key) < |out|
            && out[Find(out, key)].value == if Sensitive(fold, key) then REDACTED else Redact(fold, entries[i].value, depth)
    decreases |entries|
  {
    hide Redact, Sensitive, Find, Assign;
    var n := |entries| - 1;
    var front, key := RedactEntries(fold, entries[..n], depth), Head(entries[n].key, MAX_KEY);
    var value := if Sensitive(fold, key) then REDACTED else Redact(fold, entries[n].value, depth);
    AssignedIsFound(front, key, value, Head(entries[i].key, MAX_KEY));
    if i < n { LastEntryStays(fold, entries[..n], depth, i); }
  }

  /**
    A dictionary's entry after redaction: the marker exactly if its key, cut to a
    hundred characters, folded and with dashes as underscores, holds one of the
    sensitive parts, and otherwise its value redacted one level deeper.
  */
  lemma SecretsAreMasked(fold: string -> string, entries: seq<Entry>, depth: nat, i: nat, key: string, normalized: string)
    requires depth <= 6 && i < |entries| && i < 50
    requires key == (if |entries[i].key| <= 100 then entries[i].key else entries[i].key[..100]) && Normalized(fold(key), normalized)
    requires forall j :: i < j < |entries| && j < 50 ==> Head(entries[j].key, 100) != key
    ensures var r := Redact(fold, Entries(entries), depth);
            && r.Entries? && (exists m :: 0 <= m < |r.entries| && r.entries[m].key == key)
            && (HoldsSecret(normalized) ==> Under(r.entries, key) == Text("[REDACTED]"))
            && (!HoldsSecret(normalized) ==> Under(r.entries, key) == Redact(fold, entries[i].value, depth + 1))
  {
    hide HoldsSecret, Sensitive, RedactEntries;
    var kept := Head(entries, MAX_ENTRIES);
    assert kept[i] == entries[i] && forall j :: 0 <= j < |kept| ==> kept[j] == entries[j];
    SensitiveMeansSecret(fold, key, normalized);
    LastEntryStays(fold, kept, depth + 1, i);
    var out := RedactEntries(fold, kept, depth + 1);
    assert out[Find(out, key)].key == key;
  }

  /** Everything else is kept: texts to five hundred characters, the first fifty items one by one, and plain values as they are. */
  lemma {:induction false} RestIsKept(fold: string -> string, v: Value, depth: nat)
    requires depth <= 6
    ensures v.Null? || v.Flag? || v.Number? ==> Redact(fold, v, depth) == v
    ensures v.Text? ==> Redact(fold, v, depth) == Text(if |v.text| <= 500 then v.text else v.text[..500])
    ensures v.Other? ==> Redact(fold, v, depth) == Text(if |v.rendered| <= 500 then v.rendered else v.rendered[..500])
    ensures v.Items? ==>
      var r := Redact(fold, v, depth);
      && r.Items? && |r.items| == (if |v.items| <= 50 then |v.items| else 50)
      && forall i :: 0 <= i < |r.items| ==> r.items[i] == Redact(fold, v.items[i], depth + 1)
  {
    if v.Items? {
      var kept := Head(v.items, MAX_ENTRIES);
      forall i | 0 <= i < |kept| ensures RedactItems(fold, kept, depth + 1)[i] == Redact(fold, kept[i], depth + 1) {
        ItemsOneByOne(fold, kept, depth + 1, i);
      }
    }
  }

  lemma {:induction false} ItemsOneByOne(fold: string -> string, items: seq<Value>, depth: nat, i: nat)
    requires i < |items|
    ensures RedactItems(fold, items, depth)[i] == Redact(fold, items[i], depth)
    decreases |items|
  {
    if i < |items| - 1 { ItemsOneByOne(fold, items[..|items| - 1], depth, i); }
  }

  // ---- nesting ----

  /** How many containers deep a value goes. */
  ghost predicate NestsWithin(v: Value, levels: nat)
    decreases v
  {
    match v
    case Entries(entries) => levels > 0 && forall i :: 0 <= i < |entries| ==> NestsWithin(entries[i].value, levels - 1)
    case Items(items) => levels > 0 && forall i :: 0 <= i < |items| ==> NestsWithin(items[i], levels - 1)
    case _ => true
  }

  lemma {:induction false} CleanNestsWithin(fold: string -> string, v: Value, depth: nat)
    requires Clean(fold, v, depth) && depth <= MAX_DEPTH + 1
    ensures NestsWithin(v, MAX_DEPTH + 1 - depth)
    decreases v
  {
    if depth <= MAX_DEPTH {
      match v
      case Entries(entries) =>
        forall i | 0 <= i < |entries| ensures NestsWithin(entries[i].value, MAX_DEPTH - depth) {
          assert CleanEntry(fold, entries[i], depth + 1);
          if !Sensitive(fold, entries[i].key) { CleanNestsWithin(fold, entries[i].value, depth + 1); }
        }
      case Items(items) =>
        forall i | 0 <= i < |items| ensures NestsWithin(items[i], MAX_DEPTH - depth) {
          CleanNestsWithin(fold, items[i], depth + 1);
        }
      case _ =>
    }
  }

  /** Redacted output is clean throughout and never nests more than seven containers. */
  lemma RedactedOutputIsBounded(fold: string -> string, v: Value)
    ensures Clean(fold, Redact(fold, v, 0), 0) && NestsWithin(Redact(fold, v, 0), 7)
  {
    RedactedIsClean(fold, v, 0);
    CleanNestsWithin(fold, Redact(fold, v, 0), 0);
  }
}
