/** Item names as the inventory and vehicle-storage dialogs display them,
    and the layout of those dialogs' item lists. */
module ItemNames {
  import opened Results
  import opened Text

  /** `ws.map(f)`. */
  function MapWords(f: string -> string, ws: seq<string>): (r: seq<string>)
    ensures |r| == |ws|
    ensures forall i :: 0 <= i < |ws| ==> r[i] == f(ws[i])
  {
    seq(|ws|, i requires 0 <= i < |ws| => f(ws[i]))
  }

  /** The inventory dialog's word rule: the first character as it is, the
      rest in lower case. */
  function InventoryWord(w: string): (r: string)
    ensures |r| == |w|
    ensures |w| > 0 ==> r[0] == w[0] && r[1..] == Lower(w[1..])
  {
    if |w| == 0 then "" else [w[0]] + Lower(w[1..])
  }

  /** The storage dialog's word rule: the first character in upper case,
      the rest in lower case. */
  function StorageWord(w: string): (r: string)
    ensures |r| == |w|
    ensures |w| > 0 ==> r[0] == UpperChar(w[0]) && r[1..] == Lower(w[1..])
  {
    if |w| == 0 then "" else [UpperChar(w[0])] + Lower(w[1..])
  }

  /** Upper-casing the first character of a word and nothing else. */
  function CapitaliseWord(w: string): (r: string)
    ensures |r| == |w|
    ensures |w| > 0 ==> r[0] == UpperChar(w[0]) && r[1..] == w[1..]
  {
    if |w| == 0 then "" else [UpperChar(w[0])] + w[1..]
  }

  /** The words of an item name: underscores read as spaces, then split on
      every space, empty words included. */
  function Segments(name: string): (r: seq<string>)
    ensures |r| > 0
    ensures forall k :: 0 <= k < |r| ==> ' ' !in r[k] && '_' !in r[k]
  {
    var spaced := ReplaceChar(name, '_', ' ');
    var r := Split(spaced, ' ');
    forall k | 0 <= k < |r| ensures '_' !in r[k] {
      SplitKeepsOut(spaced, ' ', '_', k);
    }
    r
  }

  /** The words, each after a word rule, joined with single spaces. */
  function Spell(f: string -> string, ws: seq<string>): string {
    Join(MapWords(f, ws), ' ')
  }

  /** The storage dialog's `formatItemName`. */
  function StorageName(name: string): string {
    Spell(StorageWord, Segments(name))
  }

  /** The inventory dialog's `formatItemName` as written: underscores
      become spaces, then `WEAPON_` is removed, then every word gets the
      inventory word rule. */
  function InventoryNameAsWritten(name: string): string {
    Spell(InventoryWord, Split(RemoveAll(ReplaceChar(name, '_', ' '), "WEAPON_"), ' '))
  }

  /** The inventory name with the weapon prefix removed before the
      underscores are replaced, so that it can match. */
  function InventoryName(name: string): string {
    Spell(InventoryWord, Segments(RemoveAll(name, "WEAPON_")))
  }

  /** Each word of a text in capitalised form. */
  function Capitalise(s: string): string {
    Spell(CapitaliseWord, Split(s, ' '))
  }

  // ---------------------------------------------------------------------
  // Characters and lengths

  /** A word rule that never introduces the character `c`. */
  ghost predicate KeepsOut(f: string -> string, c: char) {
    forall w :: c in f(w) ==> c in w
  }

  /** A word rule that keeps every word's length. */
  ghost predicate KeepsLength(f: string -> string) {
    forall w :: |f(w)| == |w|
  }

  /** A character of one word is a character of the joined text. */
  lemma {:induction false} WordInJoin(ws: seq<string>, sep: char, k: nat, c: char)
    requires k < |ws| && c in ws[k]
    ensures c in Join(ws, sep)
  {
    if k > 0 {
      WordInJoin(ws[1..], sep, k - 1, c);
    }
  }

  /** A character absent from a text is absent from each of its pieces. */
  lemma SplitKeepsOut(s: string, sep: char, c: char, k: nat)
    requires k < |Split(s, sep)|
    requires forall i :: 0 <= i < |s| ==> s[i] != c
    ensures c !in Split(s, sep)[k]
  {
    if c in Split(s, sep)[k] {
      WordInJoin(Split(s, sep), sep, k, c);
      JoinSplit(s, sep);
    }
  }

  lemma {:induction false} JoinFree(ws: seq<string>, sep: char, c: char)
    requires c != sep
    requires forall k :: 0 <= k < |ws| ==> c !in ws[k]
    ensures c !in Join(ws, sep)
  {
    if |ws| > 1 {
      JoinFree(ws[1..], sep, c);
    }
  }

  lemma {:induction false} JoinMapLength(f: string -> string, ws: seq<string>, sep: char)
    requires KeepsLength(f)
    ensures |Join(MapWords(f, ws), sep)| == |Join(ws, sep)|
  {
    if |ws| > 1 {
      JoinMapLength(f, ws[1..], sep);
      assert MapWords(f, ws)[1..] == MapWords(f, ws[1..]);
    }
  }

  /** Spelling words free of spaces and underscores with a rule that
      introduces neither: the result has no underscore, and splitting it on
      spaces gives back the spelled words one for one, empty ones
      included. */
  lemma SpellSegments(f: string -> string, ws: seq<string>)
    requires |ws| > 0 && forall k :: 0 <= k < |ws| ==> ' ' !in ws[k] && '_' !in ws[k]
    requires KeepsOut(f, ' ') && KeepsOut(f, '_')
    ensures '_' !in Spell(f, ws)
    ensures Split(Spell(f, ws), ' ') == MapWords(f, ws)
  {
    var fs := MapWords(f, ws);
    forall k | 0 <= k < |fs| ensures ' ' !in fs[k] && '_' !in fs[k] {
      assert fs[k] == f(ws[k]);
    }
    JoinFree(fs, ' ', '_');
    SplitJoin(fs, ' ');
  }

  lemma LowerKeepsOut(s: string, c: char)
    requires c == ' ' || c == '_'
    ensures c in Lower(s) ==> c in s
  {
    if c in Lower(s) {
      var k :| 0 <= k < |s| && Lower(s)[k] == c;
    }
  }

  lemma InventoryWordFacts()
    ensures KeepsOut(InventoryWord, ' ') && KeepsOut(InventoryWord, '_') && KeepsLength(InventoryWord)
    ensures forall w :: InventoryWord(InventoryWord(w)) == InventoryWord(w)
  {
    forall w, c | c == ' ' || c == '_' ensures c in InventoryWord(w) ==> c in w {
      if |w| > 0 {
        LowerKeepsOut(w[1..], c);
        assert w == [w[0]] + w[1..];
        assert InventoryWord(w) == [w[0]] + Lower(w[1..]);
      }
    }
    forall w ensures InventoryWord(InventoryWord(w)) == InventoryWord(w) {
      if |w| > 0 {
        LowerIdempotent(w[1..]);
      }
    }
  }

  lemma StorageWordFacts()
    ensures KeepsOut(StorageWord, ' ') && KeepsOut(StorageWord, '_') && KeepsLength(StorageWord)
    ensures forall w :: StorageWord(StorageWord(w)) == StorageWord(w)
  {
    forall w, c | c == ' ' || c == '_' ensures c in StorageWord(w) ==> c in w {
      if |w| > 0 {
        LowerKeepsOut(w[1..], c);
        assert w == [w[0]] + w[1..];
        assert StorageWord(w) == [UpperChar(w[0])] + Lower(w[1..]);
      }
    }
    forall w ensures StorageWord(StorageWord(w)) == StorageWord(w) {
      if |w| > 0 {
        LowerIdempotent(w[1..]);
      }
    }
  }

  /** Replacing underscores first leaves no `_` for the `WEAPON_` pattern
      to match, so as written its removal never changes anything. */
  lemma WeaponRemovalIsDead(name: string)
    ensures RemoveAll(ReplaceChar(name, '_', ' '), "WEAPON_") == ReplaceChar(name, '_', ' ')
  {
    var spaced := ReplaceChar(name, '_', ' ');
    assert '_' !in spaced by {
      forall k | 0 <= k < |spaced| ensures spaced[k] != '_' { }
    }
    assert '_' in "WEAPON_" by { assert "WEAPON_"[6] == '_'; }
    RemoveAllAbsent(spaced, "WEAPON_", '_');
  }

  lemma AsWrittenIsSpelled(name: string)
    ensures InventoryNameAsWritten(name) == Spell(InventoryWord, Segments(name))
  {
    WeaponRemovalIsDead(name);
  }

  // ---------------------------------------------------------------------
  // What the names look like

  /** The storage name has no underscore, is as long as the item name, and
      has one word per space- or underscore-separated segment of it, each
      word the segment's storage form. */
  lemma StorageNameShape(name: string)
    ensures '_' !in StorageName(name)
    ensures |StorageName(name)| == |name|
    ensures Split(StorageName(name), ' ') == MapWords(StorageWord, Segments(name))
  {
    StorageWordFacts();
    SpellSegments(StorageWord, Segments(name));
    JoinMapLength(StorageWord, Segments(name), ' ');
    JoinSplit(ReplaceChar(name, '_', ' '), ' ');
  }

  /** The same holds for the inventory name as written, with the inventory
      word rule. */
  lemma InventoryNameAsWrittenShape(name: string)
    ensures '_' !in InventoryNameAsWritten(name)
    ensures |InventoryNameAsWritten(name)| == |name|
    ensures Split(InventoryNameAsWritten(name), ' ') == MapWords(InventoryWord, Segments(name))
  {
    AsWrittenIsSpelled(name);
    InventoryWordFacts();
    SpellSegments(InventoryWord, Segments(name));
    JoinMapLength(InventoryWord, Segments(name), ' ');
    JoinSplit(ReplaceChar(name, '_', ' '), ' ');
  }

  /** The corrected inventory name has no underscore either. */
  lemma InventoryNameNoUnderscore(name: string)
    ensures '_' !in InventoryName(name)
  {
    InventoryWordFacts();
    SpellSegments(InventoryWord, Segments(RemoveAll(name, "WEAPON_")));
  }

  /** Spelled words are spelled again unchanged when the rule is
      idempotent. */
  lemma SpellIdempotent(f: string -> string, ws: seq<string>)
    requires |ws| > 0 && forall k :: 0 <= k < |ws| ==> ' ' !in ws[k] && '_' !in ws[k]
    requires KeepsOut(f, ' ') && KeepsOut(f, '_')
    requires forall w :: f(f(w)) == f(w)
    ensures Spell(f, Segments(Spell(f, ws))) == Spell(f, ws)
  {
    var s := Spell(f, ws);
    SpellSegments(f, ws);
    assert ReplaceChar(s, '_', ' ') == s;
    var fs := MapWords(f, ws);
    assert MapWords(f, fs) == fs;
  }

  /** Displaying an already displayed storage name changes nothing. */
  lemma StorageNameIdempotent(name: string)
    ensures StorageName(StorageName(name)) == StorageName(name)
  {
    StorageWordFacts();
    SpellIdempotent(StorageWord, Segments(name));
  }

  /** Nor does displaying an inventory name again, as written. */
  lemma InventoryNameAsWrittenIdempotent(name: string)
    ensures InventoryNameAsWritten(InventoryNameAsWritten(name)) == InventoryNameAsWritten(name)
  {
    AsWrittenIsSpelled(name);
    AsWrittenIsSpelled(InventoryNameAsWritten(name));
    InventoryWordFacts();
    SpellIdempotent(InventoryWord, Segments(name));
  }

  /** The empty item name is displayed as the empty string. */
  lemma EmptyNames()
    ensures StorageName("") == "" && InventoryNameAsWritten("") == "" && InventoryName("") == ""
  {
    assert Segments("") == [""];
    AsWrittenIsSpelled("");
    assert RemoveAll("", "WEAPON_") == "";
  }

  /** The storage name is the inventory name with the first letter of each
      word upper-cased. */
  lemma StorageIsCapitalisedInventory(name: string)
    ensures StorageName(name) == Capitalise(InventoryNameAsWritten(name))
  {
    InventoryNameAsWrittenShape(name);
    var ws := Segments(name);
    var inv := MapWords(InventoryWord, ws);
    forall k | 0 <= k < |ws| ensures CapitaliseWord(inv[k]) == StorageWord(ws[k]) {
      var w := ws[k];
      if |w| > 0 {
        assert inv[k] == [w[0]] + Lower(w[1..]);
        assert inv[k][1..] == Lower(w[1..]);
      }
    }
    assert MapWords(CapitaliseWord, inv) == MapWords(StorageWord, ws);
  }

  // ---------------------------------------------------------------------
  // The weapon prefix

  lemma OneWord(w: string)
    requires '_' !in w && ' ' !in w
    ensures Segments(w) == [w]
  {
    assert ReplaceChar(w, '_', ' ') == w;
    SplitJoin([w], ' ');
  }

  /** With the prefix removed first, `WEAPON_<w>` is displayed as the
      weapon's own name. */
  lemma WeaponPrefixStripped(w: string)
    requires '_' !in w && ' ' !in w
    ensures InventoryName("WEAPON_" + w) == InventoryWord(w)
  {
    var s := "WEAPON_" + w;
    assert s[..7] == "WEAPON_" && s[7..] == w;
    assert RemoveAll(s, "WEAPON_") == RemoveAll(w, "WEAPON_");
    assert '_' in "WEAPON_" by { assert "WEAPON_"[6] == '_'; }
    RemoveAllAbsent(w, "WEAPON_", '_');
    OneWord(w);
  }

  /** As written, `WEAPON_<w>` keeps its prefix: the displayed name is
      seven characters longer than the corrected one. */
  lemma WeaponPrefixKeptAsWritten(w: string)
    requires '_' !in w && ' ' !in w
    ensures |InventoryNameAsWritten("WEAPON_" + w)| == |InventoryName("WEAPON_" + w)| + 7
  {
    InventoryNameAsWrittenShape("WEAPON_" + w);
    WeaponPrefixStripped(w);
  }

  // The examples below rest on string-literal identities (`PistolShown`,
  // `WeaponShown`, `WeaponPistolParts`, and further down
  // `WeaponPistolSpaced`, `AmmoShown`, `AmmoStored`, `AmmoParts`). They are
  // not properties of the display rules: each states one literal fact on its
  // own so that every proof that uses it stays small.

  lemma PistolShown()
    ensures InventoryWord("PISTOL") == "Pistol"
  {
    assert Lower("ISTOL") == "istol";
  }

  lemma WeaponShown()
    ensures InventoryWord("WEAPON") == "Weapon"
  {
    assert Lower("EAPON") == "eapon";
  }

  lemma WeaponPistolParts()
    ensures "WEAPON_PISTOL" == "WEAPON_" + "PISTOL"
    ensures "WEAPON_PISTOL" == "WEAPON" + "_" + "PISTOL"
    ensures '_' !in "PISTOL" && ' ' !in "PISTOL" && '_' !in "WEAPON" && ' ' !in "WEAPON"
  {
  }

  /** The pistol is shown as "Pistol" once the prefix is removed first. */
  lemma PistolExample()
    ensures InventoryName("WEAPON_PISTOL") == "Pistol"
  {
    WeaponPistolParts();
    WeaponPrefixStripped("PISTOL");
    PistolShown();
  }

  /** A name of two words joined by an underscore has those two
      segments. */
  lemma TwoSegments(name: string, a: string, b: string)
    requires name == a + "_" + b
    requires '_' !in a && ' ' !in a && '_' !in b && ' ' !in b
    ensures Segments(name) == [a, b]
  {
    var spaced := ReplaceChar(name, '_', ' ');
    assert spaced == a + " " + b by {
      forall k | 0 <= k < |name| ensures spaced[k] == (a + " " + b)[k] {
        if k < |a| {
          assert name[k] == a[k];
        } else if k > |a| {
          assert name[k] == b[k - |a| - 1];
        }
      }
    }
    assert Join([a, b], ' ') == a + [' '] + b;
    SplitJoin([a, b], ' ');
  }

  lemma SpellTwo(f: string -> string, a: string, b: string)
    ensures Spell(f, [a, b]) == f(a) + " " + f(b)
  {
    var fs := MapWords(f, [a, b]);
    assert fs == [f(a), f(b)];
    assert fs[1..] == [f(b)];
    assert Join(fs, ' ') == f(a) + [' '] + Join([f(b)], ' ');
  }

  /** Two words joined by an underscore are displayed as the two words
      after the word rule, joined by a space. */
  lemma TwoWordNames(a: string, b: string)
    requires '_' !in a && ' ' !in a && '_' !in b && ' ' !in b
    ensures InventoryNameAsWritten(a + "_" + b) == InventoryWord(a) + " " + InventoryWord(b)
    ensures StorageName(a + "_" + b) == StorageWord(a) + " " + StorageWord(b)
  {
    AsWrittenIsSpelled(a + "_" + b);
    TwoSegments(a + "_" + b, a, b);
    SpellTwo(InventoryWord, a, b);
    SpellTwo(StorageWord, a, b);
  }

  /** A two-word name shown through its two formatted words. */
  lemma TwoWordsShown(name: string, a: string, b: string, fa: string, fb: string, shown: string)
    requires name == a + "_" + b
    requires '_' !in a && ' ' !in a && '_' !in b && ' ' !in b
    requires InventoryWord(a) == fa && InventoryWord(b) == fb && shown == fa + " " + fb
    ensures InventoryNameAsWritten(name) == shown
  {
    TwoWordNames(a, b);
  }

  lemma TwoWordsStored(name: string, a: string, b: string, fa: string, fb: string, shown: string)
    requires name == a + "_" + b
    requires '_' !in a && ' ' !in a && '_' !in b && ' ' !in b
    requires StorageWord(a) == fa && StorageWord(b) == fb && shown == fa + " " + fb
    ensures StorageName(name) == shown
  {
    TwoWordNames(a, b);
  }

  // Literal identity, kept separate to keep proofs small (see above).
  lemma WeaponPistolSpaced()
    ensures "Weapon Pistol" == "Weapon" + " " + "Pistol"
  {
  }

  /** As written, the pistol is shown as "Weapon Pistol". */
  lemma PistolExampleAsWritten()
    ensures InventoryNameAsWritten("WEAPON_PISTOL") == "Weapon Pistol"
  {
    WeaponPistolParts();
    WeaponShown();
    PistolShown();
    WeaponPistolSpaced();
    TwoWordsShown("WEAPON_PISTOL", "WEAPON", "PISTOL", "Weapon", "Pistol", "Weapon Pistol");
  }

  // Literal identities, kept separate to keep proofs small (see above).
  lemma AmmoShown()
    ensures InventoryWord("pistol") == "pistol" && InventoryWord("ammo") == "ammo"
  {
    assert Lower("istol") == "istol" && Lower("mmo") == "mmo";
  }

  lemma AmmoStored()
    ensures StorageWord("pistol") == "Pistol" && StorageWord("ammo") == "Ammo"
  {
    assert Lower("istol") == "istol" && Lower("mmo") == "mmo";
  }

  lemma AmmoParts()
    ensures "pistol_ammo" == "pistol" + "_" + "ammo"
    ensures '_' !in "pistol" && ' ' !in "pistol" && '_' !in "ammo" && ' ' !in "ammo"
    ensures "pistol ammo" == "pistol" + " " + "ammo"
    ensures "Pistol Ammo" == "Pistol" + " " + "Ammo"
  {
  }

  /** A lower-case item keeps its lower-case first letter in the inventory:
      "pistol_ammo" is shown as "pistol ammo". */
  lemma AmmoExample()
    ensures InventoryNameAsWritten("pistol_ammo") == "pistol ammo"
  {
    AmmoParts();
    AmmoShown();
    TwoWordsShown("pistol_ammo", "pistol", "ammo", "pistol", "ammo", "pistol ammo");
  }

  /** Storage capitalises every word: "pistol_ammo" is "Pistol Ammo". */
  lemma AmmoStoredExample()
    ensures StorageName("pistol_ammo") == "Pistol Ammo"
  {
    AmmoParts();
    AmmoStored();
    TwoWordsStored("pistol_ammo", "pistol", "ammo", "Pistol", "Ammo", "Pistol Ammo");
  }

  // ---------------------------------------------------------------------
  // The dialogs' item lists

  /** An item of a glovebox or trunk. */
  datatype StorageItem = StorageItem(name: string, amount: int)

  /** One displayed item card: its name and its `x<amount>` badge. */
  datatype Card = Card(title: string, badge: string)

  /** A section shows the word "Empty" or one card per item. */
  datatype SectionBody = EmptyNote | Cards(cards: seq<Card>)

  datatype Section = Section(header: string, body: SectionBody)

  /** `renderInventorySection`: the header counts the items; an empty
      section says so; otherwise each item gets a card, in order, with its
      storage name and amount. */
  function RenderSection(title: string, items: seq<StorageItem>): (r: Section)
    ensures r.header == title + " (" + ShowInt(|items|) + " items)"
    ensures r.body.EmptyNote? <==> |items| == 0
    ensures r.body.Cards? ==> |r.body.cards| == |items|
    ensures r.body.Cards? ==> forall i :: 0 <= i < |items| ==>
              r.body.cards[i] == Card(StorageName(items[i].name), "x" + ShowInt(items[i].amount))
  {
    Section(title + " (" + ShowInt(|items|) + " items)",
      if |items| == 0 then EmptyNote
      else Cards(seq(|items|, i requires 0 <= i < |items| =>
                   Card(StorageName(items[i].name), "x" + ShowInt(items[i].amount)))))
  }

  /** What the storage dialog body shows: a spinner, the error's message,
      or the glovebox section followed by the trunk section. */
  datatype StorageView = StorageLoading | StorageFailed(message: string) | StorageSections(glovebox: Section, trunk: Section) | NoStorage

  function StorageViewOf(loading: bool, outcome: Option<Result<(seq<StorageItem>, seq<StorageItem>), string>>): (r: StorageView)
    ensures loading <==> r.StorageLoading?
    ensures r.StorageFailed? <==> !loading && outcome.Some? && outcome.value.Err?
    ensures r.StorageFailed? ==> r.message == outcome.value.error
    ensures r.StorageSections? <==> !loading && outcome.Some? && outcome.value.Ok?
    ensures r.StorageSections? ==> && |r.glovebox.header| > 8 && r.glovebox.header[..8] == "Glovebox"
                                   && |r.trunk.header| > 5 && r.trunk.header[..5] == "Trunk"
    ensures r.StorageSections? ==> && (r.glovebox.body.EmptyNote? <==> |outcome.value.value.0| == 0)
                                   && (r.trunk.body.EmptyNote? <==> |outcome.value.value.1| == 0)
    ensures r.StorageSections? ==> && r.glovebox == RenderSection("Glovebox", outcome.value.value.0)
                                   && r.trunk == RenderSection("Trunk", outcome.value.value.1)
  {
    if loading then StorageLoading
    else match outcome
      case Some(Err(m)) => StorageFailed(m)
      case Some(Ok((glovebox, trunk))) => StorageSections(RenderSection("Glovebox", glovebox), RenderSection("Trunk", trunk))
      case None => NoStorage
  }

  /** An inventory item of a character. */
  datatype InventoryItem = InventoryItem(name: string, slot: int, count: int)

  /** One inventory card: the displayed name, `Slot <n>` and `x<count>`. */
  datatype InventoryCard = InventoryCard(title: string, slot: string, badge: string)

  /** The inventory list as the page renders it: the header counts the
      items, an empty inventory says "No items in inventory", otherwise one
      card per item in order, titled by `InventoryNameAsWritten`. */
  function RenderInventory(items: seq<InventoryItem>): (r: (string, Result<seq<InventoryCard>, string>))
    ensures r.0 == "Inventory Items (" + ShowInt(|items|) + ")"
    ensures r.1.Err? <==> |items| == 0
    ensures r.1.Err? ==> r.1.error == "No items in inventory"
    ensures r.1.Ok? ==> |r.1.value| == |items| && forall i :: 0 <= i < |items| ==>
              r.1.value[i] == InventoryCard(InventoryNameAsWritten(items[i].name), "Slot " + ShowInt(items[i].slot), "x" + ShowInt(items[i].count))
  {
    ("Inventory Items (" + ShowInt(|items|) + ")",
     if |items| == 0 then Err("No items in inventory")
     else Ok(seq(|items|, i requires 0 <= i < |items| =>
               InventoryCard(InventoryNameAsWritten(items[i].name), "Slot " + ShowInt(items[i].slot), "x" + ShowInt(items[i].count)))))
  }

  /** The inventory list with the prefix removal working as intended. */
  function RenderInventoryCorrected(items: seq<InventoryItem>): (r: (string, Result<seq<InventoryCard>, string>))
    ensures r.0 == "Inventory Items (" + ShowInt(|items|) + ")"
    ensures r.1.Err? <==> |items| == 0
    ensures r.1.Err? ==> r.1.error == "No items in inventory"
    ensures r.1.Ok? ==> |r.1.value| == |items| && forall i :: 0 <= i < |items| ==>
              r.1.value[i] == InventoryCard(InventoryName(items[i].name), "Slot " + ShowInt(items[i].slot), "x" + ShowInt(items[i].count))
  {
    ("Inventory Items (" + ShowInt(|items|) + ")",
     if |items| == 0 then Err("No items in inventory")
     else Ok(seq(|items|, i requires 0 <= i < |items| =>
               InventoryCard(InventoryName(items[i].name), "Slot " + ShowInt(items[i].slot), "x" + ShowInt(items[i].count)))))
  }

  /** The two renderings share the header, the empty case, and each
      card's slot and count; they differ only in the titles, and a
      one-word weapon's card is seven characters longer as written. */
  lemma {:induction false} RenderingsDifferOnlyInTitles(items: seq<InventoryItem>, i: nat, w: string)
    requires i < |items| && '_' !in w && ' ' !in w
    ensures RenderInventory(items).0 == RenderInventoryCorrected(items).0
    ensures RenderInventory(items).1.Ok? && RenderInventoryCorrected(items).1.Ok?
    ensures RenderInventory(items).1.value[i].slot == RenderInventoryCorrected(items).1.value[i].slot
    ensures RenderInventory(items).1.value[i].badge == RenderInventoryCorrected(items).1.value[i].badge
    ensures items[i].name == "WEAPON_" + w ==>
              |RenderInventory(items).1.value[i].title| == |RenderInventoryCorrected(items).1.value[i].title| + 7
  {
    if items[i].name == "WEAPON_" + w {
      WeaponPrefixKeptAsWritten(w);
    }
  }
}
