/** Address records and the free-text/config address parser of frank.py. */
module Addresses {
  import opened Wrappers
  import opened Errors
  import opened Strings

  /** The 7-field address tuple the parser produces, in the program's order:
      first name, last name or company, street, house number, postal code,
      city, country. */
  datatype Address = Address(
    first: string,
    name: string,
    street: string,
    number: string,
    zip: string,
    city: string,
    country: string)

  const DefaultCountry: string := "DEU"

  /** The parsed configuration: section name to (key to value). */
  type Config = map<string, map<string, string>>

  /** The fields as a 7-element row, the shape a CSV row has. */
  function ToFields(a: Address): (fs: seq<string>)
    ensures |fs| == 7
  {
    [a.first, a.name, a.street, a.number, a.zip, a.city, a.country]
  }

  /** A 7-element row read as an address, field by field. */
  function FromFields(fs: seq<string>): (a: Address)
    requires |fs| == 7
    ensures ToFields(a) == fs
  {
    Address(fs[0], fs[1], fs[2], fs[3], fs[4], fs[5], fs[6])
  }

  lemma FieldsRoundTrip(a: Address)
    ensures FromFields(ToFields(a)) == a
  {
  }

  // ---------------------------------------------------------------------
  // Named addresses from the configuration (`$name`)
  // ---------------------------------------------------------------------

  /** The keys of an address section, in the order the tuple is built. */
  const AddressKeys: seq<string> := ["first", "name", "street", "number", "zip", "city", "country"]

  /** The keys that must be present; `first` and `country` have defaults. */
  const RequiredKeys: seq<string> := ["name", "street", "number", "zip", "city"]

  /** The field an address-section key fills. */
  function Field(a: Address, key: string): string
  {
    if key == "first" then a.first
    else if key == "name" then a.name
    else if key == "street" then a.street
    else if key == "number" then a.number
    else if key == "zip" then a.zip
    else if key == "city" then a.city
    else if key == "country" then a.country
    else ""
  }

  /** The section an address is stored as: every key holds its field. */
  function SectionOf(a: Address): (h: map<string, string>)
    ensures forall k :: k in AddressKeys ==> k in h && h[k] == Field(a, k)
  {
    map["first" := a.first, "name" := a.name, "street" := a.street,
        "number" := a.number, "zip" := a.zip, "city" := a.city,
        "country" := a.country]
  }

  /** Python's `h.get(key, default)`. */
  function Get(h: map<string, string>, key: string, default: string): string
  {
    if key in h then h[key] else default
  }

  /** Index of the first required key the section lacks (`|RequiredKeys|`
      when it has them all). */
  function FirstMissing(h: map<string, string>): (j: nat)
    ensures j <= |RequiredKeys|
    ensures forall i :: 0 <= i < j ==> RequiredKeys[i] in h
    ensures j < |RequiredKeys| ==> RequiredKeys[j] !in h
  {
    if "name" !in h then 0
    else if "street" !in h then 1
    else if "number" !in h then 2
    else if "zip" !in h then 3
    else if "city" !in h then 4
    else 5
  }

  /** `conf['a.' + key]` turned into an address: the section must exist and
      hold every required key; the first missing one (in tuple order) is
      the one reported. */
  function LookupAddress(key: string, conf: Config): (r: Result<Address, Error>)
    ensures "a." + key !in conf ==> r == Err(MissingSection("a." + key))
    ensures r.Ok? <==> "a." + key in conf && forall k :: k in RequiredKeys ==> k in conf["a." + key]
    ensures r.Ok? ==> forall k :: k in AddressKeys && k in conf["a." + key] ==> Field(r.value, k) == conf["a." + key][k]
    ensures r.Ok? && "first" !in conf["a." + key] ==> r.value.first == ""
    ensures r.Ok? && "country" !in conf["a." + key] ==> r.value.country == DefaultCountry
    ensures r.Err? && "a." + key in conf ==>
      r.error == MissingKey("a." + key, RequiredKeys[FirstMissing(conf["a." + key])])
  {
    var section := "a." + key;
    if section !in conf then Err(MissingSection(section))
    else
      var h := conf[section];
      if "name" !in h then Err(MissingKey(section, "name"))
      else if "street" !in h then Err(MissingKey(section, "street"))
      else if "number" !in h then Err(MissingKey(section, "number"))
      else if "zip" !in h then Err(MissingKey(section, "zip"))
      else if "city" !in h then Err(MissingKey(section, "city"))
      else Ok(Address(Get(h, "first", ""), h["name"], h["street"], h["number"],
                      h["zip"], h["city"], Get(h, "country", DefaultCountry)))
  }

  /** Storing an address as section `a.<key>` and looking it up again
      gives back the same address. */
  lemma LookupSectionRoundTrip(key: string, conf: Config, a: Address)
    ensures LookupAddress(key, conf["a." + key := SectionOf(a)]) == Ok(a)
  {
    var h := SectionOf(a);
    assert forall k :: k in AddressKeys ==> k in h;
  }

  // ---------------------------------------------------------------------
  // Free-text addresses
  // ---------------------------------------------------------------------

  /** The recipient-line delimiter. The candidates are tried newline
      first, then `;`, and every one present overwrites the previous
      choice: `;` wins when both occur. */
  function Delimiter(s: string): (d: Option<char>)
    ensures d.None? <==> ';' !in s && '\n' !in s
    ensures ';' in s ==> d == Some(';')
    ensures ';' !in s && '\n' in s ==> d == Some('\n')
  {
    var afterNewline := if '\n' in s then Some('\n') else None;
    if ';' in s then Some(';') else afterNewline
  }

  /** The name line is cut at its last space: a line without a space is
      all name. */
  predicate NameLineSplit(line: string, first: string, name: string)
  {
    if ' ' in line then first + " " + name == line && ' ' !in name
    else first == "" && name == line
  }

  /** The street line is cut at its last space: a line without a space is
      all street. */
  predicate StreetLineSplit(line: string, street: string, number: string)
  {
    if ' ' in line then street + " " + number == line && ' ' !in number
    else street == line && number == ""
  }

  /** The city line is cut at its first space: a line without a space is
      all city. */
  predicate CityLineSplit(line: string, zip: string, city: string)
  {
    if ' ' in line then zip + " " + city == line && ' ' !in zip
    else zip == "" && city == line
  }

  /** Splitting on spaces gives more than one word exactly when there is a space. */
  lemma WordsOfLine(line: string)
    ensures |Split(line, ' ')| == 1 ==> Split(line, ' ')[0] == line && ' ' !in line
    ensures |Split(line, ' ')| > 1 ==>
      && ' ' in line
      && line == Join(Split(line, ' ')[..|Split(line, ' ')| - 1], ' ') + " " + Split(line, ' ')[|Split(line, ' ')| - 1]
      && line == Split(line, ' ')[0] + " " + Join(Split(line, ' ')[1..], ' ')
  {
    var xs := Split(line, ' ');
    JoinSplit(line, ' ');
    if |xs| > 1 {
      JoinLast(xs, ' ');
      var n := |xs|;
      assert line[|line| - |xs[n - 1]| - 1] == ' ';
    }
  }

  /** The first name is every word but the last, the name the last word. */
  function NameLine(line: string): (r: (string, string))
    ensures NameLineSplit(line, r.0, r.1)
  {
    var xs := Split(line, ' ');
    WordsOfLine(line);
    if |xs| == 1 then ("", xs[0])
    else (Join(xs[..|xs| - 1], ' '), xs[|xs| - 1])
  }

  /** The street is every word but the last, the house number the last word. */
  function StreetLine(line: string): (r: (string, string))
    ensures StreetLineSplit(line, r.0, r.1)
  {
    var xs := Split(line, ' ');
    WordsOfLine(line);
    if |xs| == 1 then (xs[0], "")
    else (Join(xs[..|xs| - 1], ' '), xs[|xs| - 1])
  }

  /** The postal code is the first word, the city every other word. */
  function CityLine(line: string): (r: (string, string))
    ensures CityLineSplit(line, r.0, r.1)
  {
    var xs := Split(line, ' ');
    WordsOfLine(line);
    if |xs| == 1 then ("", xs[0])
    else (xs[0], Join(xs[1..], ' '))
  }

  /** The four optional lines of a recipient string, turned into an address;
      absent lines leave their fields at the defaults, lines after the
      fourth are never looked at. */
  function ParseLines(l: seq<string>): (r: Address)
    ensures |l| > 0 ==> NameLineSplit(l[0], r.first, r.name)
    ensures |l| == 0 ==> r.first == "" && r.name == ""
    ensures |l| > 1 ==> StreetLineSplit(l[1], r.street, r.number)
    ensures |l| <= 1 ==> r.street == "" && r.number == ""
    ensures |l| > 2 ==> CityLineSplit(l[2], r.zip, r.city)
    ensures |l| <= 2 ==> r.zip == "" && r.city == ""
    ensures |l| <= 3 || AllSpace(l[3]) ==> r.country == DefaultCountry
    ensures |l| > 3 && !AllSpace(l[3]) ==> r.country == Strip(l[3])
  {
    var (first, name) := if |l| > 0 then NameLine(l[0]) else ("", "");
    var (street, number) := if |l| > 1 then StreetLine(l[1]) else ("", "");
    var (zip, city) := if |l| > 2 then CityLine(l[2]) else ("", "");
    var country := if |l| > 3 && Strip(l[3]) != "" then Strip(l[3]) else DefaultCountry;
    Address(first, name, street, number, zip, city, country)
  }

  /** Only the first four lines matter. */
  lemma ParseLinesIgnoresExtra(l: seq<string>)
    requires |l| > 4
    ensures ParseLines(l) == ParseLines(l[..4])
  {
  }

  /** `parse_address`: `$name` is a configuration lookup whatever else the
      string holds; any other string needs a `;` or newline delimiter, `;`
      taking precedence when both occur. */
  function ParseAddress(s: string, conf: Config): (r: Result<Address, Error>)
    ensures |s| > 0 && s[0] == '$' ==> r == LookupAddress(s[1..], conf)
    ensures !(|s| > 0 && s[0] == '$') ==>
      && (r.Err? <==> ';' !in s && '\n' !in s)
      && (r.Err? ==> r.error == NoDelimiter)
      && (';' in s ==> r == Ok(ParseLines(Split(s, ';'))))
      && (';' !in s && '\n' in s ==> r == Ok(ParseLines(Split(s, '\n'))))
  {
    if |s| > 0 && s[0] == '$' then LookupAddress(s[1..], conf)
    else
      match Delimiter(s)
      case None => Err(NoDelimiter)
      case Some(d) => Ok(ParseLines(Split(s, d)))
  }

  /** The name-line rule pins the parse down: no other cut satisfies it. */
  lemma NameLineUnique(line: string, first: string, name: string)
    requires NameLineSplit(line, first, name)
    ensures NameLine(line) == (first, name)
  {
    var r := NameLine(line);
    if ' ' in line {
      CutAtLastUnique(first, name, r.0, r.1, ' ');
    }
  }

  /** The street-line rule pins the parse down: no other cut satisfies it. */
  lemma StreetLineUnique(line: string, street: string, number: string)
    requires StreetLineSplit(line, street, number)
    ensures StreetLine(line) == (street, number)
  {
    var r := StreetLine(line);
    if ' ' in line {
      CutAtLastUnique(street, number, r.0, r.1, ' ');
    }
  }

  /** The city-line rule pins the parse down: no other cut satisfies it. */
  lemma CityLineUnique(line: string, zip: string, city: string)
    requires CityLineSplit(line, zip, city)
    ensures CityLine(line) == (zip, city)
  {
    var r := CityLine(line);
    if ' ' in line {
      CutAtFirstUnique(zip, city, r.0, r.1, ' ');
    }
  }

  /** The program's own usage example: the name line "Jane User" gives the
      first name "Jane", not an empty one. */
  lemma JaneUserExample(conf: Config)
    ensures ParseAddress("Jane User;Fakestreet 2;67890 Fakestadt", conf)
      == Ok(Address("Jane", "User", "Fakestreet", "2", "67890", "Fakestadt", DefaultCountry))
  {
    var s := "Jane User;Fakestreet 2;67890 Fakestadt";
    assert s[0] != '$' && s[9] == ';';
    JaneUserLines();
    JaneUserFields();
  }

  lemma JaneUserLines()
    ensures Split("Jane User;Fakestreet 2;67890 Fakestadt", ';')
      == ["Jane User", "Fakestreet 2", "67890 Fakestadt"]
  {
    var lines := ["Jane User", "Fakestreet 2", "67890 Fakestadt"];
    JaneUserJoin();
    JaneUserNoSemicolon();
    SplitJoin(lines, ';');
  }

  lemma JaneUserJoin()
    ensures Join(["Jane User", "Fakestreet 2", "67890 Fakestadt"], ';') == "Jane User;Fakestreet 2;67890 Fakestadt"
  {
    var l0, l1, l2 := "Jane User", "Fakestreet 2", "67890 Fakestadt";
    assert [l0, l1, l2][1..] == [l1, l2];
    assert [l1, l2][1..] == [l2];
    assert Join([l1, l2], ';') == l1 + [';'] + l2;
    assert l0 + [';'] + (l1 + [';'] + l2) == "Jane User;Fakestreet 2;67890 Fakestadt";
  }

  lemma JaneUserNoSemicolon()
    ensures ';' !in "Jane User" && ';' !in "Fakestreet 2" && ';' !in "67890 Fakestadt"
  {
    var l0, l1, l2 := "Jane User", "Fakestreet 2", "67890 Fakestadt";
    assert forall i :: 0 <= i < |l0| ==> l0[i] != ';';
    assert forall i :: 0 <= i < |l1| ==> l1[i] != ';';
    assert forall i :: 0 <= i < |l2| ==> l2[i] != ';';
  }

  lemma JaneUserFields()
    ensures ParseLines(["Jane User", "Fakestreet 2", "67890 Fakestadt"])
      == Address("Jane", "User", "Fakestreet", "2", "67890", "Fakestadt", DefaultCountry)
  {
    JaneUserName();
    JaneUserStreet();
    JaneUserCity();
  }

  lemma JaneUserName()
    ensures NameLine("Jane User") == ("Jane", "User")
  {
    assert "Jane User"[4] == ' ';
    assert forall i :: 0 <= i < 4 ==> "User"[i] != ' ';
    assert "Jane" + " " + "User" == "Jane User";
    NameLineUnique("Jane User", "Jane", "User");
  }

  lemma JaneUserStreet()
    ensures StreetLine("Fakestreet 2") == ("Fakestreet", "2")
  {
    assert "Fakestreet 2"[10] == ' ';
    assert "2"[0] != ' ';
    assert "Fakestreet" + " " + "2" == "Fakestreet 2";
    StreetLineUnique("Fakestreet 2", "Fakestreet", "2");
  }

  lemma JaneUserCity()
    ensures CityLine("67890 Fakestadt") == ("67890", "Fakestadt")
  {
    assert "67890 Fakestadt"[5] == ' ';
    assert forall i :: 0 <= i < 5 ==> "67890"[i] != ' ';
    assert "67890" + " " + "Fakestadt" == "67890 Fakestadt";
    CityLineUnique("67890 Fakestadt", "67890", "Fakestadt");
  }

  /** The documented `[a.default]` section: an empty `first` and no
      `country` key, so a company address in the default country. */
  lemma DefaultSectionExample()
    ensures ParseAddress("$default", map["a.default" := map[
        "first" := "", "name" := "Firma ACME", "street" := "Lindenallee", "number" := "3",
        "zip" := "12345", "city" := "Bielefeld"]])
      == Ok(Address("", "Firma ACME", "Lindenallee", "3", "12345", "Bielefeld", DefaultCountry))
  {
    assert "$default"[1..] == "default";
    assert "a." + "default" == "a.default";
  }

  /** A string with no delimiter is rejected. */
  lemma NoDelimiterExample(conf: Config)
    ensures ParseAddress("no-delimiter-string", conf) == Err(NoDelimiter)
  {
    var s := "no-delimiter-string";
    assert forall i :: 0 <= i < |s| ==> s[i] != ';' && s[i] != '\n';
  }

  // ---------------------------------------------------------------------
  // `mk_address`: personal or company variant
  // ---------------------------------------------------------------------

  /** The location part every address object is built from. */
  datatype Location = Location(street: string, number: string, zip: string, city: string, country: string)

  /** The address object handed to the postal service. */
  datatype PostalAddress =
    | Personal(first: string, name: string, location: Location)
    | Company(company: string, location: Location)

  /** A personal address when the first name is non-empty, a company one otherwise. */
  function MkAddress(x: Address): (r: PostalAddress)
    ensures r.Personal? <==> x.first != ""
  {
    var loc := Location(x.street, x.number, x.zip, x.city, x.country);
    if x.first != "" then Personal(x.first, x.name, loc) else Company(x.name, loc)
  }

  /** The address tuple an address object was built from. */
  function Flatten(p: PostalAddress): Address
  {
    match p
    case Personal(first, name, loc) => Address(first, name, loc.street, loc.number, loc.zip, loc.city, loc.country)
    case Company(company, loc) => Address("", company, loc.street, loc.number, loc.zip, loc.city, loc.country)
  }

  /** An address object keeps every field of the tuple it was built from. */
  lemma MkAddressKeeps(x: Address)
    ensures Flatten(MkAddress(x)) == x
  {
  }

  /** Every address object `MkAddress` can produce is rebuilt from its tuple. */
  lemma MkAddressFlatten(p: PostalAddress)
    requires p.Personal? ==> p.first != ""
    ensures MkAddress(Flatten(p)) == p
  {
  }
}
