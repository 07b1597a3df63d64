/**
 * The version and language tables of the ROM toolbox: the ARM9 expansion
 * resolver (`arm9Expansion`, up to the point where it asks for
 * confirmation) and the archive table of the sentence-case action.
 *
 * The resolver switches on the version and language NAMES, as the dialog
 * does; the enumerations below name the cases it supports, and
 * `PlanTemplate` restates the same knowledge as one static table, against
 * which `Resolve` is proved.
 */
module PatchPlan {
  import opened Base

  /** The base address at which the ARM9 image is loaded. */
  const LoadBase := 0x0200_0000

  datatype Version = Diamond | Pearl | Platinum | HeartGold | SoulSilver
  datatype Language = USA | ESP

  function VersionName(v: Version): string
  {
    match v
    case Diamond => "Diamond"
    case Pearl => "Pearl"
    case Platinum => "Platinum"
    case HeartGold => "HeartGold"
    case SoulSilver => "SoulSilver"
  }

  function LanguageName(l: Language): string
  {
    match l
    case USA => "USA"
    case ESP => "ESP"
  }

  /** The case label a version name matches, if any. */
  function VersionOf(name: string): (r: Option<Version>)
    ensures r.Some? ==> VersionName(r.value) == name
  {
    if name == "Diamond" then Some(Diamond)
    else if name == "Pearl" then Some(Pearl)
    else if name == "Platinum" then Some(Platinum)
    else if name == "HeartGold" then Some(HeartGold)
    else if name == "SoulSilver" then Some(SoulSilver)
    else None
  }

  /** The case label a language name matches, if any. */
  function LanguageOf(name: string): (r: Option<Language>)
    ensures r.Some? ==> LanguageName(r.value) == name
  {
    if name == "USA" then Some(USA)
    else if name == "ESP" then Some(ESP)
    else None
  }

  /** Every supported version and language is recognised by its own name. */
  lemma NamesRoundTrip(v: Version, l: Language)
    ensures VersionOf(VersionName(v)) == Some(v)
    ensures LanguageOf(LanguageName(l)) == Some(l)
  {
  }

  /** What the resolver decides before anything is shown or written. */
  datatype Resolution =
    | FileIdUnreadable      // Int16.Parse of the fileID entry throws: the dialog crashes
    | UnsupportedVersion    // unsupportedROM()
    | UnsupportedLanguage   // unsupportedROMLanguage()
    | Plan(fileId: int, branchOffset: int, branchKey: string, initOffset: int, initKey: string)

  /** The plan for one family, once the language has picked the init address. */
  function PickLanguage(fileId: int, lang: string, branchAddress: int, branchKey: string,
                        initKey: string, usaInit: int, espInit: int): Resolution
  {
    var initAddress :=
      if lang == "USA" then Some(usaInit)
      else if lang == "ESP" then Some(espInit)
      else None;
    match initAddress
    case None => UnsupportedLanguage
    case Some(a) => Plan(fileId, branchAddress - LoadBase, branchKey, a - LoadBase, initKey)
  }

  /**
   * `arm9Expansion` up to the confirmation prompt. `fileIds(key)` is
   * `Int16.Parse(GetString(key))` on the ARM9 expansion table, `None`
   * when that throws (the entry is missing or not a 16-bit number). The
   * file ID is read BEFORE the version is examined.
   */
  function Resolve(version: string, lang: string, fileIds: string -> Option<int>): Resolution
  {
    match fileIds("fileID" + version)
    case None => FileIdUnreadable
    case Some(fileId) =>
      match VersionOf(version)
      case None => UnsupportedVersion
      case Some(Diamond) | Some(Pearl) =>
        PickLanguage(fileId, lang, 0x0200_0C80, "branchCode" + "Diamond" + lang,
                     "initString" + "Diamond", 0x0210_64EC, 0x0210_668C)
      case Some(Platinum) =>
        PickLanguage(fileId, lang, 0x0200_0CB4, "branchCode" + version + lang,
                     "initString" + version + lang, 0x0210_0E20, 0x0210_101C)
      case Some(HeartGold) | Some(SoulSilver) =>
        PickLanguage(fileId, lang, 0x0200_0CD0, "branchCode" + "HeartGold" + lang,
                     "initString" + "HeartGold", 0x0211_0334, 0x0211_0354)
  }

  /** One row of the expansion table, with offsets already relative to the image. */
  datatype Template = Template(branchOffset: nat, branchKey: string, initOffset: nat, initKey: string)

  /** The expansion table as data: one row per supported version and language. */
  function PlanTemplate(v: Version, l: Language): Template
  {
    match (v, l)
    case (Diamond, USA) | (Pearl, USA) =>
      Template(0xC80, "branchCodeDiamondUSA", 0x10_64EC, "initStringDiamond")
    case (Diamond, ESP) | (Pearl, ESP) =>
      Template(0xC80, "branchCodeDiamondESP", 0x10_668C, "initStringDiamond")
    case (Platinum, USA) =>
      Template(0xCB4, "branchCodePlatinumUSA", 0x10_0E20, "initStringPlatinumUSA")
    case (Platinum, ESP) =>
      Template(0xCB4, "branchCodePlatinumESP", 0x10_101C, "initStringPlatinumESP")
    case (HeartGold, USA) | (SoulSilver, USA) =>
      Template(0xCD0, "branchCodeHeartGoldUSA", 0x11_0334, "initStringHeartGold")
    case (HeartGold, ESP) | (SoulSilver, ESP) =>
      Template(0xCD0, "branchCodeHeartGoldESP", 0x11_0354, "initStringHeartGold")
  }

  /** The language switch on a supported language's own name picks that language's address. */
  lemma PickLanguageOf(fileId: int, l: Language, branchAddress: int, branchKey: string,
                       initKey: string, usaInit: int, espInit: int)
    ensures PickLanguage(fileId, LanguageName(l), branchAddress, branchKey, initKey, usaInit, espInit)
         == Plan(fileId, branchAddress - LoadBase, branchKey,
                 (if l == USA then usaInit else espInit) - LoadBase, initKey)
  {
    if l == ESP {
      assert LanguageName(l)[0] != "USA"[0];
    }
  }

  /** The table row the resolver builds for one version, once its file ID has been read. */
  predicate ResolvesToRow(v: Version, l: Language, fileIds: string -> Option<int>, id: int)
  {
    var t := PlanTemplate(v, l);
    Resolve(VersionName(v), LanguageName(l), fileIds) == Plan(id, t.branchOffset, t.branchKey, t.initOffset, t.initKey)
  }

  lemma ResolveDiamondPearl(v: Version, l: Language, fileIds: string -> Option<int>, id: int)
    requires v == Diamond || v == Pearl
    requires fileIds("fileID" + VersionName(v)) == Some(id)
    ensures ResolvesToRow(v, l, fileIds, id)
  {
    NamesRoundTrip(v, l);
    var t := PlanTemplate(v, l);
    assert "branchCode" + "Diamond" + LanguageName(l) == t.branchKey;
    assert "initString" + "Diamond" == t.initKey;
    PickLanguageOf(id, l, 0x0200_0C80, t.branchKey, t.initKey, 0x0210_64EC, 0x0210_668C);
  }

  lemma ResolvePlatinum(l: Language, fileIds: string -> Option<int>, id: int)
    requires fileIds("fileID" + VersionName(Platinum)) == Some(id)
    ensures ResolvesToRow(Platinum, l, fileIds, id)
  {
    NamesRoundTrip(Platinum, l);
    var t := PlanTemplate(Platinum, l);
    assert "branchCode" + "Platinum" + LanguageName(l) == t.branchKey;
    assert "initString" + "Platinum" + LanguageName(l) == t.initKey;
    PickLanguageOf(id, l, 0x0200_0CB4, t.branchKey, t.initKey, 0x0210_0E20, 0x0210_101C);
  }

  lemma ResolveHeartGoldSoulSilver(v: Version, l: Language, fileIds: string -> Option<int>, id: int)
    requires v == HeartGold || v == SoulSilver
    requires fileIds("fileID" + VersionName(v)) == Some(id)
    ensures ResolvesToRow(v, l, fileIds, id)
  {
    NamesRoundTrip(v, l);
    var t := PlanTemplate(v, l);
    assert "branchCode" + "HeartGold" + LanguageName(l) == t.branchKey;
    assert "initString" + "HeartGold" == t.initKey;
    PickLanguageOf(id, l, 0x0200_0CD0, t.branchKey, t.initKey, 0x0211_0334, 0x0211_0354);
  }

  /**
   * For every supported version and language, the resolver produces the
   * table's rebased offsets and keys (once the file ID has been read).
   */
  lemma ResolveMatchesTable(v: Version, l: Language, fileIds: string -> Option<int>)
    ensures var r := Resolve(VersionName(v), LanguageName(l), fileIds);
      match fileIds("fileID" + VersionName(v))
      case None => r == FileIdUnreadable
      case Some(id) =>
        var t := PlanTemplate(v, l);
        r == Plan(id, t.branchOffset, t.branchKey, t.initOffset, t.initKey)
  {
    match fileIds("fileID" + VersionName(v))
    case None =>
    case Some(id) =>
      match v
      case Diamond | Pearl => ResolveDiamondPearl(v, l, fileIds, id);
      case Platinum => ResolvePlatinum(l, fileIds, id);
      case HeartGold | SoulSilver => ResolveHeartGoldSoulSilver(v, l, fileIds, id);
  }

  /** A version name outside the five never yields a plan. */
  lemma ResolveUnsupportedVersion(version: string, lang: string, fileIds: string -> Option<int>)
    requires VersionOf(version) == None
    ensures Resolve(version, lang, fileIds)
         == if fileIds("fileID" + version).None? then FileIdUnreadable else UnsupportedVersion
  {
  }

  /** A supported version with a language other than USA and ESP never yields a plan. */
  lemma ResolveUnsupportedLanguage(version: string, lang: string, fileIds: string -> Option<int>)
    requires VersionOf(version).Some? && LanguageOf(lang) == None
    ensures Resolve(version, lang, fileIds)
         == if fileIds("fileID" + version).None? then FileIdUnreadable else UnsupportedLanguage
  {
  }

  /**
   * Every plan the resolver produces is for a supported pair, and its
   * branch window comes first, with more than a megabyte before the init
   * window: the order the rewriter's single forward pass relies on.
   */
  lemma PlanIsOrdered(version: string, lang: string, fileIds: string -> Option<int>)
    requires Resolve(version, lang, fileIds).Plan?
    ensures VersionOf(version).Some? && LanguageOf(lang).Some?
    ensures var p := Resolve(version, lang, fileIds);
      0 <= p.branchOffset && p.branchOffset + 0x10_0000 < p.initOffset
  {
  }

  // -----------------------------------------------------------------------
  // applyPokemonNamesToSentenceCase_Click

  /** The text archives holding Pokémon names, per version. */
  function SentenceCaseArchives(version: string): Option<seq<int>>
  {
    match VersionOf(version)
    case None => None
    case Some(Diamond) | Some(Pearl) => Some([443, 444])
    case Some(Platinum) => Some([493, 494, 793, 794, 795, 796, 797])
    case Some(HeartGold) | Some(SoulSilver) => Some([237, 238, 817, 818, 819, 820, 821])
  }

  datatype SentenceCaseOutcome = RomUnsupported | Cancelled | Converted(archives: seq<int>)

  /**
   * The sentence-case action: the archive table, then the operator's
   * answer. The conversion itself is an empty routine, so a confirmed run
   * changes nothing.
   */
  function NamesToSentenceCase(version: string, confirmed: bool): SentenceCaseOutcome
  {
    match SentenceCaseArchives(version)
    case None => RomUnsupported
    case Some(archives) => if confirmed then Converted(archives) else Cancelled
  }

  /**
   * The sentence-case action supports exactly the versions the ARM9
   * expansion supports, sibling editions share their archives, and every
   * run that is not refused names at least two archives.
   */
  lemma SentenceCaseCoversSameVersions(version: string, confirmed: bool)
    ensures SentenceCaseArchives(version).Some? <==> VersionOf(version).Some?
    ensures NamesToSentenceCase(version, confirmed) == RomUnsupported <==> VersionOf(version) == None
    ensures NamesToSentenceCase(version, confirmed).Converted?
        ==> confirmed && |NamesToSentenceCase(version, confirmed).archives| >= 2
    ensures SentenceCaseArchives("Diamond") == SentenceCaseArchives("Pearl")
    ensures SentenceCaseArchives("HeartGold") == SentenceCaseArchives("SoulSilver")
  {
  }
}
