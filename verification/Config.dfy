/**
 * The whitelist as Config keeps it: entries are read, stored canonical, decided on and printed.
 * Reading and printing an IPv6 address is the address library's business and stays a parameter.
 */
module Config {
  import opened Wrappers
  import opened Characters
  import opened Cidr
  import opened WhitelistText

  type Address6 = v: nat | v < Pow2(128)

  /** The library's conversions of IPv6 addresses. */
  datatype Library = Library(parse6: string -> Option<Address6>, print6: nat -> string)

  function ParseAddress(text: string, family: Family, lib: Library): Option<nat> {
    if family.V4? then
      ParseAddress4(text)
    else
      match lib.parse6(text)
      case None => None
      case Some(v) => Some(v)
  }

  /** make_network_v4 and make_network_v6: an address, a slash, and digits within the width. */
  function MakeNetwork(entry: string, family: Family, lib: Library): Option<Network> {
    var pos := IndexOf(entry, '/');
    if pos >= |entry| - 1 then
      None
    else
      var digits := entry[pos + 1..];
      var address := ParseAddress(entry[..pos], family, lib);
      if !AllDigits(digits) || address.None? || Number(digits) > family.Width() then None
      else Some(Network(Address(family, address.value), Number(digits)))
  }

  /** The network an entry stands for, without its host bits. */
  function ParseEntry(entry: string, lib: Library): Option<Network> {
    var family := if ':' in entry then V6 else V4;
    if '/' in entry then
      match MakeNetwork(entry, family, lib)
      case None => None
      case Some(net) =>
        if net.prefix <= net.address.family.Width() then Some(CanonicalOf(net.address, net.prefix)) else None
    else
      match ParseAddress(entry, family, lib)
      case None => None
      case Some(v) => Some(Network(Address(family, v), family.Width()))
  }

  function Add(list: Whitelist, net: Network): Whitelist {
    if net.address.family.V4? then Whitelist(list.v4 + [net], list.v6) else Whitelist(list.v4, list.v6 + [net])
  }

  /** Entries are added one after the other until one is invalid. */
  function AddAll(list: Whitelist, entries: seq<string>, lib: Library): Result<Whitelist, string>
    decreases |entries|
  {
    if entries == [] then
      Ok(list)
    else
      var parsed := ParseEntry(entries[0], lib);
      if parsed.None? then Err(entries[0]) else AddAll(Add(list, parsed.value), entries[1..], lib)
  }

  /** The text of a network. */
  function NetworkText(net: Network, lib: Library): string {
    (if net.address.family.V4? then Dotted(net.address.value) else lib.print6(net.address.value))
    + ['/'] + Print(net.prefix)
  }

  function Texts(nets: seq<Network>, lib: Library): (texts: seq<string>)
    ensures |texts| == |nets|
  {
    if nets == [] then [] else [NetworkText(nets[0], lib)] + Texts(nets[1..], lib)
  }

  /** ip_whitelist_repr. */
  function Repr(list: Whitelist, lib: Library): string {
    if list.v4 == [] && list.v6 == [] then "(any)"
    else Joined(Texts(list.v4, lib) + Texts(list.v6, lib))
  }

  // ----- Every stored network is canonical -----

  lemma FullWidth(a: Address)
    requires a.Fits()
    ensures Canonical(Network(a, a.family.Width()))
  {
    var net := Network(a, a.family.Width());
    assert net.Size() == 1;
    CanonicalIsMultiple(net);
  }

  lemma CanonicalIsCanonical(a: Address, prefix: nat)
    requires a.Fits() && prefix <= a.family.Width()
    ensures Canonical(CanonicalOf(a, prefix))
  {
    CanonicalRoundsDown(a, prefix);
    CanonicalShape(a, prefix);
    hide CanonicalOf;
    hide Pow2;
    RoundedDown(a.value, Pow2(a.family.Width() - prefix));
    CanonicalIsMultiple(CanonicalOf(a, prefix));
  }

  lemma ParsedFits(text: string, family: Family, lib: Library)
    ensures ParseAddress(text, family, lib).Some? ==>
              Address(family, ParseAddress(text, family, lib).value).Fits()
  {
    var r := ParseAddress(text, family, lib);
    if family.V4? && r.Some? {
      DottedRoundTrip(text, r.value);
    }
  }

  /** Whatever text is accepted, the network stored has no host bits and an address of its family. */
  lemma EntryIsBlock(entry: string, lib: Library)
    ensures ParseEntry(entry, lib).Some? ==>
              Block(ParseEntry(entry, lib).value, if ':' in entry then V6 else V4)
  {
    hide ParseAddress, CanonicalOf, Pow2, Canonical;
    var family := if ':' in entry then V6 else V4;
    ParsedFits(entry, family, lib);
    ParsedFits(entry[..IndexOf(entry, '/')], family, lib);
    if ParseEntry(entry, lib).Some? {
      if '/' in entry {
        var net := MakeNetwork(entry, family, lib).value;
        CanonicalIsCanonical(net.address, net.prefix);
        CanonicalShape(net.address, net.prefix);
      } else {
        FullWidth(Address(family, ParseAddress(entry, family, lib).value));
      }
    }
  }

  /** The configuration's whitelist fields and the methods that fill, ask and print them. */
  class Config {
    var ipWhitelistV4: seq<Network>
    var ipWhitelistV6: seq<Network>
    const lib: Library

    ghost function Contents(): Whitelist
      reads this
    {
      Whitelist(ipWhitelistV4, ipWhitelistV6)
    }

    ghost predicate Valid()
      reads this
    {
      Contents().Valid()
    }

    constructor (lib: Library)
      ensures Valid() && Contents() == Whitelist([], []) && this.lib == lib
    {
      this.lib := lib;
      ipWhitelistV4, ipWhitelistV6 := [], [];
    }

    /** add_whitelist_entry: Err carries the entry its exception names; nothing is stored then. */
    method AddWhitelistEntry(entry: string) returns (r: Result<(), string>)
      requires Valid()
      modifies this
      ensures Valid()
      ensures r == if ParseEntry(entry, lib).Some? then Ok(()) else Err(entry)
      ensures Contents() == if r.Ok? then Add(old(Contents()), ParseEntry(entry, lib).value) else old(Contents())
    {
      EntryIsBlock(entry, lib);
      var isV6 := ':' in entry;
      var hasPrefix := '/' in entry;
      if isV6 {
        if hasPrefix {
          var net := MakeNetwork(entry, V6, lib);
          if net.None? || net.value.prefix > 128 {
            return Err(entry);
          }
          ipWhitelistV6 := ipWhitelistV6 + [CanonicalOf(net.value.address, net.value.prefix)];
        } else {
          var address := lib.parse6(entry);
          if address.None? {
            return Err(entry);
          }
          ipWhitelistV6 := ipWhitelistV6 + [Network(Address(V6, address.value), 128)];
        }
      } else {
        if hasPrefix {
          var net := MakeNetwork(entry, V4, lib);
          if net.None? || net.value.prefix > 32 {
            return Err(entry);
          }
          ipWhitelistV4 := ipWhitelistV4 + [CanonicalOf(net.value.address, net.value.prefix)];
        } else {
          var address := ParseAddress4(entry);
          if address.None? {
            return Err(entry);
          }
          ipWhitelistV4 := ipWhitelistV4 + [Network(Address(V4, address.value), 32)];
        }
      }
      return Ok(());
    }

    /** The command-line branch of init: the first invalid entry ends it. */
    method Init(ipWhitelist: string) returns (r: Result<(), string>)
      requires Valid()
      modifies this
      ensures Valid()
      ensures match AddAll(old(Contents()), Csv(ipWhitelist), lib)
              case Ok(list) => r == Ok(()) && Contents() == list
              case Err(entry) => r == Err(entry)
    {
      var entries := SplitCsv(ipWhitelist);
      var i := 0;
      assert entries[0..] == entries;
      while i < |entries|
        invariant 0 <= i <= |entries| && Valid()
        invariant AddAll(Contents(), entries[i..], lib) == AddAll(old(Contents()), entries, lib)
      {
        assert entries[i..][0] == entries[i] && entries[i..][1..] == entries[i + 1..];
        var added := AddWhitelistEntry(entries[i]);
        if added.Err? {
          return added;
        }
        i := i + 1;
      }
      return Ok(());
    }

    /** is_ip_allowed: the empty whitelist admits everybody, any other one exactly its intervals. */
    predicate IsIpAllowed(address: Address)
      requires Valid() && address.Fits()
      reads this
      ensures IsIpAllowed(address)
              <==> (ipWhitelistV4 == [] && ipWhitelistV6 == []) || InSome(Contents().Of(address.family), address)
    {
      AllowedIsMembership(Contents(), address);
      IsAllowed(Whitelist(ipWhitelistV4, ipWhitelistV6), address)
    }

    method IpWhitelistRepr() returns (out: string)
      ensures out == Repr(Contents(), lib)
      ensures ipWhitelistV4 == [] && ipWhitelistV6 == [] ==> out == "(any)"
    {
      hide Joined, Texts;
      if ipWhitelistV4 == [] && ipWhitelistV6 == [] {
        return "(any)";
      }
      NothingJoined();
      out := AppendTexts("", ipWhitelistV4, []);
      ghost var texts := Texts(ipWhitelistV4, lib);
      assert [] + texts == texts;
      TextsFilled(ipWhitelistV4, lib);
      out := AppendTexts(out, ipWhitelistV6, texts);
    }

    /** One of the two loops of ip_whitelist_repr. */
    method AppendTexts(start: string, nets: seq<Network>, ghost before: seq<string>)
      returns (out: string)
      requires start == Joined(before) && Filled(before)
      ensures out == Joined(before + Texts(nets, lib))
    {
      out := start;
      NoTexts(before, lib);
      assert nets[..0] == [];
      hide *;
      for i := 0 to |nets|
        invariant out == Joined(before + Texts(nets[..i], lib))
      {
        JoinedUpTo(before, nets, i, lib);
        if out != "" {
          out := out + ", ";
        }
        out := out + NetworkText(nets[i], lib);
      }
      WholeTexts(nets, before, lib);
    }
  }

  predicate Filled(texts: seq<string>) {
    forall i :: 0 <= i < |texts| ==> texts[i] != ""
  }

  lemma WholeTexts(nets: seq<Network>, before: seq<string>, lib: Library)
    ensures Joined(before + Texts(nets[..|nets|], lib)) == Joined(before + Texts(nets, lib))
  {
    assert nets[..|nets|] == nets;
  }

  lemma NothingJoined()
    ensures Joined([]) == "" && Filled([])
  {
  }

  lemma NoTexts(before: seq<string>, lib: Library)
    ensures Joined(before + Texts([], lib)) == Joined(before)
  {
    assert before + [] == before;
  }

  lemma {:induction false} TextsFilled(nets: seq<Network>, lib: Library)
    ensures Filled(Texts(nets, lib))
  {
    if nets != [] {
      TextsFilled(nets[1..], lib);
    }
  }

  lemma JoinedNext(before: seq<string>, nets: seq<Network>, net: Network, lib: Library)
    requires Filled(before)
    ensures var out := Joined(before + Texts(nets, lib));
            Joined(before + Texts(nets + [net], lib))
            == (if out != "" then out + ", " else out) + NetworkText(net, lib)
  {
    var texts := before + Texts(nets, lib);
    var text := NetworkText(net, lib);
    TextsFilled(nets, lib);
    hide NetworkText, Texts;
    JoinedIsEmpty(texts);
    TextsAppends(nets, net, lib);
    JoinedAppends(texts, text);
    assert before + (Texts(nets, lib) + [text]) == texts + [text];
    hide Joined;
    assert "" + text == text;
  }

  lemma JoinedUpTo(before: seq<string>, nets: seq<Network>, i: nat, lib: Library)
    requires Filled(before) && i < |nets|
    ensures var out := Joined(before + Texts(nets[..i], lib));
            Joined(before + Texts(nets[..i + 1], lib))
            == (if out != "" then out + ", " else out) + NetworkText(nets[i], lib)
  {
    hide *;
    JoinedNext(before, nets[..i], nets[i], lib);
    assert nets[..i + 1] == nets[..i] + [nets[i]];
  }

  lemma JoinedIsEmpty(texts: seq<string>)
    requires Filled(texts)
    ensures Joined(texts) == "" <==> texts == []
  {
  }

  lemma {:induction false} JoinedAppends(texts: seq<string>, text: string)
    ensures Joined(texts + [text]) == if texts == [] then text else Joined(texts) + ", " + text
  {
    if texts == [] {
      assert texts + [text] == [text];
    } else {
      assert (texts + [text])[1..] == texts[1..] + [text];
      JoinedAppends(texts[1..], text);
    }
  }

  lemma {:induction false} TextsAppends(nets: seq<Network>, net: Network, lib: Library)
    ensures Texts(nets + [net], lib) == Texts(nets, lib) + [NetworkText(net, lib)]
  {
    if nets == [] {
      assert nets + [net] == [net];
    } else {
      assert (nets + [net])[1..] == nets[1..] + [net];
      TextsAppends(nets[1..], net, lib);
    }
  }

  // ----- The printed whitelist reads back as itself -----

  /** What the round trip needs of the library: it reads what it prints, which looks like an IPv6 address. */
  ghost predicate Faithful(lib: Library) {
    forall v: Address6 {:trigger lib.print6(v)} ::
      lib.parse6(lib.print6(v)) == Some(v) && ':' in lib.print6(v) && '/' !in lib.print6(v) && Plain(lib.print6(v))
  }

  lemma {:induction false} PlainDigits(s: string)
    requires AllDigits(s)
    ensures ':' !in s && '/' !in s && ',' !in s && '.' !in s
    ensures s != "" ==> Plain(s)
  {
  }

  lemma AddressText(net: Network, text: string, lib: Library)
    requires net.Fits() && (net.address.family.V6? ==> Faithful(lib))
    requires text == if net.address.family.V4? then Dotted(net.address.value) else lib.print6(net.address.value)
    ensures ParseAddress(text, net.address.family, lib) == Some(net.address.value)
    ensures Plain(text) && '/' !in text && (':' in text <==> net.address.family.V6?)
  {
    if net.address.family.V4? {
      DottedRoundTrip(text, net.address.value);
      DottedIsPlain(net.address.value);
    } else {
      var v: Address6 := net.address.value;
      assert lib.parse6(lib.print6(v)) == Some(v);
    }
  }

  lemma DottedIsPlain(v: nat)
    ensures Plain(Dotted(v)) && '/' !in Dotted(v) && ':' !in Dotted(v)
  {
    PlainDigits(Print(v / 0x100_0000));
    PlainDigits(Print(v / 0x1_0000 % 0x100));
    PlainDigits(Print(v / 0x100 % 0x100));
    PlainDigits(Print(v % 0x100));
    hide Print;
    var last := Print(v % 0x100);
    assert Dotted(v)[|Dotted(v)| - 1] == last[|last| - 1];
  }

  lemma MakeNetworkOf(text: string, family: Family, v: nat, prefix: nat, lib: Library)
    requires '/' !in text && ParseAddress(text, family, lib) == Some(v) && prefix <= family.Width()
    ensures MakeNetwork(text + ['/'] + Print(prefix), family, lib) == Some(Network(Address(family, v), prefix))
  {
    hide ParseAddress;
    var digits := Print(prefix);
    hide Print;
    var entry := text + ['/'] + digits;
    assert entry == text + (['/'] + digits);
    IndexIs(text, '/', ['/'] + digits);
    assert entry[..|text|] == text && entry[|text| + 1..] == digits;
  }

  lemma TextAndPrefix(text: string, digits: string)
    requires Plain(text) && AllDigits(digits) && digits != ""
    ensures var entry := text + ['/'] + digits;
            Plain(entry) && '/' in entry && (':' in entry <==> ':' in text)
  {
    PlainDigits(digits);
    var entry := text + ['/'] + digits;
    assert entry[|text|] == '/' && entry[|entry| - 1] == digits[|digits| - 1];
  }

  /** The text of a stored network is the entry it is read from again, and a plain one. */
  lemma EntryOfText(net: Network, lib: Library)
    requires Canonical(net) && (net.address.family.V6? ==> Faithful(lib))
    ensures Plain(NetworkText(net, lib)) && ParseEntry(NetworkText(net, lib), lib) == Some(net)
  {
    var family := net.address.family;
    var text := if family.V4? then Dotted(net.address.value) else lib.print6(net.address.value);
    AddressText(net, text, lib);
    hide Dotted, ParseAddress, CanonicalOf, Print, Faithful, Plain, MakeNetwork, Address.Fits;
    MakeNetworkOf(text, family, net.address.value, net.prefix, lib);
    TextAndPrefix(text, Print(net.prefix));
    assert NetworkText(net, lib) == text + ['/'] + Print(net.prefix);
  }

  lemma PrefixTooLong(text: string, family: Family, prefix: nat, lib: Library)
    requires '/' !in text && prefix > family.Width()
    ensures MakeNetwork(text + ['/'] + Print(prefix), family, lib) == None
  {
    hide ParseAddress;
    var digits := Print(prefix);
    hide Print;
    var entry := text + ['/'] + digits;
    assert entry == text + (['/'] + digits);
    IndexIs(text, '/', ['/'] + digits);
    assert entry[|text| + 1..] == digits;
  }

  /** A text without a prefix that stands for an address, in dotted decimal form or as the library reads it. */
  predicate Denotes(text: string, a: Address, lib: Library) {
    if a.family.V4? then a.value < Pow2(32) && text == Dotted(a.value)
    else ':' in text && '/' !in text && lib.parse6(text).Some? && lib.parse6(text).value == a.value
  }

  lemma DenotesAddress(text: string, a: Address, lib: Library)
    requires Denotes(text, a, lib)
    ensures ParseAddress(text, a.family, lib) == Some(a.value) && a.Fits()
    ensures '/' !in text && (':' in text <==> a.family.V6?)
  {
    if a.family.V4? {
      DottedRoundTrip(text, a.value);
      DottedIsPlain(a.value);
    }
  }

  /**
   * An entry in prefix notation is accepted exactly when its prefix is at most the width of its
   * family, and admits the block of that size around its address, host bits or not.
   */
  lemma PrefixEntry(text: string, a: Address, prefix: nat, lib: Library)
    requires Denotes(text, a, lib)
    ensures var r := ParseEntry(text + ['/'] + Print(prefix), lib);
            && (r.Some? <==> prefix <= if a.family.V4? then 32 else 128)
            && (r.Some? ==>
                  Canonical(r.value) && r.value.prefix == prefix && r.value.address.family == a.family
                  && r.value.Contains(a))
  {
    DenotesAddress(text, a, lib);
    EntryWithPrefix(text, Print(prefix));
    hide Denotes, Print, CanonicalOf, MakeNetwork, ParseAddress, Pow2;
    if prefix <= a.family.Width() {
      MakeNetworkOf(text, a.family, a.value, prefix, lib);
      CanonicalIsCanonical(a, prefix);
      CanonicalShape(a, prefix);
      MatchesIsMembership(CanonicalOf(a, prefix), a);
    } else {
      PrefixTooLong(text, a.family, prefix, lib);
    }
  }

  lemma EntryWithPrefix(text: string, digits: string)
    requires AllDigits(digits)
    ensures var entry := text + ['/'] + digits; '/' in entry && (':' in entry <==> ':' in text)
  {
    PlainDigits(digits);
    var entry := text + ['/'] + digits;
    assert entry[|text|] == '/';
    if ':' in text {
      var k :| 0 <= k < |text| && text[k] == ':';
      assert entry[k] == ':';
    }
  }

  /** A slash without digits behind it is no prefix: the entry is refused. */
  lemma EmptyPrefixIsRefused(text: string, lib: Library)
    requires '/' !in text
    ensures ParseEntry(text + ['/'], lib) == None
  {
    var entry := text + ['/'];
    IndexIs(text, '/', ['/']);
    assert entry[|text|] == '/';
  }

  /** A bare address, of either family, admits exactly itself; any other text without a slash is refused. */
  lemma BareEntry(text: string, a: Address, b: Address, lib: Library)
    requires Denotes(text, a, lib) && b.Fits()
    ensures var r := ParseEntry(text, lib);
            r.Some? && Canonical(r.value) && (r.value.Contains(b) <==> b == a)
  {
    DenotesAddress(text, a, lib);
    FullWidth(a);
    hide Denotes, ParseAddress, CanonicalOf;
    assert Pow2(0) == 1;
  }

  /** A text without a slash that stands for no address is refused. */
  lemma NoAddressIsRefused(text: string, lib: Library)
    requires '/' !in text && forall a :: !Denotes(text, a, lib)
    ensures ParseEntry(text, lib) == None
  {
    var family := if ':' in text then V6 else V4;
    var r := ParseAddress(text, family, lib);
    if r.Some? {
      if family.V4? {
        DottedRoundTrip(text, r.value);
      }
      assert Denotes(text, Address(family, r.value), lib);
    }
  }

  /** The networks of one family that entries stand for, in order. */
  function Networks(entries: seq<string>, family: Family, lib: Library): seq<Network> {
    if entries == [] then [] else
    var parsed := ParseEntry(entries[0], lib);
    (if (':' in entries[0]) == family.V6? && parsed.Some? then [parsed.value] else [])
    + Networks(entries[1..], family, lib)
  }

  lemma NetworksFirst(list: seq<Network>, entries: seq<string>, family: Family, lib: Library)
    requires entries != [] && ParseEntry(entries[0], lib).Some?
    ensures list + Networks(entries, family, lib)
            == (if (':' in entries[0]) == family.V6? then list + [ParseEntry(entries[0], lib).value] else list)
               + Networks(entries[1..], family, lib)
  {
    hide ParseEntry;
  }

  /**
   * When all entries are valid, their networks are appended in order, each to the list of its
   * family; otherwise the first invalid one is named.
   */
  lemma {:induction false} FirstInvalidEntry(list: Whitelist, entries: seq<string>, i: nat, lib: Library)
    requires i <= |entries| && forall k :: 0 <= k < i ==> ParseEntry(entries[k], lib).Some?
    requires i < |entries| ==> ParseEntry(entries[i], lib).None?
    ensures AddAll(list, entries, lib)
            == if i < |entries| then Err(entries[i])
               else Ok(Whitelist(list.v4 + Networks(entries, V4, lib), list.v6 + Networks(entries, V6, lib)))
    decreases |entries|
  {
    if i > 0 {
      EntryIsBlock(entries[0], lib);
      NetworksFirst(list.v4, entries, V4, lib);
      NetworksFirst(list.v6, entries, V6, lib);
      hide ParseEntry, Canonical, Networks;
      assert forall k :: 0 < k < |entries| ==> entries[1..][k - 1] == entries[k];
      FirstInvalidEntry(Add(list, ParseEntry(entries[0], lib).value), entries[1..], i - 1, lib);
    } else if entries == [] {
      assert list.v4 + [] == list.v4 && list.v6 + [] == list.v6;
    }
  }

  function AddNets(list: Whitelist, nets: seq<Network>): Whitelist
    decreases |nets|
  {
    if nets == [] then list else AddNets(Add(list, nets[0]), nets[1..])
  }

  lemma {:induction false} AddNetsOfFamily(list: Whitelist, nets: seq<Network>, family: Family)
    requires Blocks(nets, family)
    ensures AddNets(list, nets)
            == if family.V4? then Whitelist(list.v4 + nets, list.v6) else Whitelist(list.v4, list.v6 + nets)
    decreases |nets|
  {
    if nets == [] {
      assert list.v4 + nets == list.v4 && list.v6 + nets == list.v6;
    } else {
      assert Block(nets[0], family);
      hide Block;
      AddNetsOfFamily(Add(list, nets[0]), nets[1..], family);
      AppendFirst(list.v4, nets);
      AppendFirst(list.v6, nets);
    }
  }

  lemma AppendFirst(list: seq<Network>, nets: seq<Network>)
    requires nets != []
    ensures list + [nets[0]] + nets[1..] == list + nets
  {
  }

  /** Reading the texts of networks, and whatever follows them, adds exactly these networks first. */
  lemma {:induction false} AddAllTexts(
    list: Whitelist, nets: seq<Network>, family: Family, more: seq<string>, lib: Library)
    requires Blocks(nets, family) && (family.V6? && nets != [] ==> Faithful(lib))
    ensures AddAll(list, Texts(nets, lib) + more, lib) == AddAll(AddNets(list, nets), more, lib)
    ensures forall i :: 0 <= i < |nets| ==> Plain(Texts(nets, lib)[i])
    decreases |nets|
  {
    hide NetworkText, ParseEntry, Faithful, Plain;
    var entries := Texts(nets, lib) + more;
    if nets == [] {
      assert entries == more;
    } else {
      assert Block(nets[0], family);
      EntryOfText(nets[0], lib);
      assert entries[0] == NetworkText(nets[0], lib);
      assert entries[1..] == Texts(nets[1..], lib) + more;
      AddAllTexts(Add(list, nets[0]), nets[1..], family, more, lib);
    }
  }

  /** A non-empty whitelist is rebuilt, in order, from what is printed of it; IPv4 ones whatever the library does. */
  lemma ReprRoundTrip(list: Whitelist, lib: Library)
    requires list.Valid() && (list.v4 != [] || list.v6 != [])
    requires list.v6 != [] ==> Faithful(lib)
    ensures AddAll(Whitelist([], []), Csv(Repr(list, lib)), lib) == Ok(list)
  {
    hide Canonical, Faithful, NetworkText, Plain, Csv, Joined, Texts;
    var texts4, texts6 := Texts(list.v4, lib), Texts(list.v6, lib);
    var nothing := Whitelist([], []);
    AddAllTexts(nothing, list.v4, V4, texts6, lib);
    AddNetsOfFamily(nothing, list.v4, V4);
    var half := Whitelist(list.v4, []);
    assert [] + list.v4 == list.v4;
    AddAllTexts(half, list.v6, V6, [], lib);
    AddNetsOfFamily(half, list.v6, V6);
    assert [] + list.v6 == list.v6;
    assert texts6 + [] == texts6;
    CsvOfJoined("", texts4 + texts6);
    assert "" + Joined(texts4 + texts6) == Joined(texts4 + texts6);
  }
}
