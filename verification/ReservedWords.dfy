/** Identifiers that the anonymizer never renames. */
module ReservedWords {

  predicate IsAsciiAlpha(c: char) {
    'a' <= c <= 'z' || 'A' <= c <= 'Z'
  }

  predicate Letters(w: string) {
    forall i :: 0 <= i < |w| ==> IsAsciiAlpha(w[i])
  }

  const KEYWORDS_A_TO_D: seq<string> := [
    "abstract", "assert", "boolean", "break", "byte", "case", "catch", "char", "class", "const", "continue",
    "default", "do", "double"
  ]

  const KEYWORDS_E_TO_I: seq<string> := [
    "else", "enum", "extends", "final", "finally", "float", "for", "goto", "if", "implements", "import",
    "instanceof", "int", "interface"
  ]

  const KEYWORDS_L_TO_R: seq<string> := [
    "long", "native", "new", "package", "private", "protected", "public", "return"
  ]

  const KEYWORDS_S_TO_W: seq<string> := [
    "short", "static", "strictfp", "super", "switch", "synchronized", "this", "throw", "throws", "transient",
    "try", "void", "volatile", "while"
  ]

  const NEWER_KEYWORDS_AND_LITERALS: seq<string> := [
    "var", "record", "sealed", "permits", "yield", "true", "false", "null"
  ]

  const PACKAGE_SEGMENTS: seq<string> := [
    "java", "javax", "jakarta", "lang", "util", "io", "net", "nio", "time", "concurrent", "function",
    "stream"
  ]

  const JAVA_LANG: seq<string> := [
    "String", "Object", "System", "Math", "Integer", "Long", "Double", "Float", "Boolean", "Character",
    "Short", "Byte", "Void", "Exception", "RuntimeException", "Throwable", "Override", "SuppressWarnings",
    "Deprecated"
  ]

  const COLLECTION_TYPES: seq<string> := [
    "List", "Map", "Set", "HashMap", "HashSet", "ArrayList", "LinkedList", "Optional", "Stream", "IntStream",
    "LongStream", "DoubleStream", "Collectors", "Collections", "Arrays", "Objects"
  ]

  const FUNCTIONAL_TYPES: seq<string> := [
    "Function", "Predicate", "Consumer", "Supplier", "Comparator", "Collector"
  ]

  const PRINT_MEMBERS: seq<string> := [
    "out", "err", "print", "println", "printf", "format"
  ]

  const STREAM_METHODS: seq<string> := [
    "filter", "map", "flatMap", "collect", "distinct", "sorted", "limit", "skip", "forEach",
    "forEachOrdered", "findFirst", "findAny", "anyMatch", "allMatch", "noneMatch", "count", "peek", "reduce",
    "max", "min", "toArray", "boxed"
  ]

  const COLLECTORS: seq<string> := [
    "toList", "toSet", "toMap", "joining", "groupingBy", "mapping", "collectingAndThen", "partitioningBy"
  ]

  const STRING_METHODS: seq<string> := [
    "length", "substring", "charAt", "isEmpty", "trim", "startsWith", "endsWith", "replace", "split",
    "isBlank", "strip", "toLowerCase", "toUpperCase"
  ]

  const OBJECT_METHODS: seq<string> := [
    "toString", "equals", "hashCode"
  ]

  const OPTIONAL_METHODS: seq<string> := [
    "empty", "ofNullable", "orElse", "orElseGet", "orElseThrow", "isPresent", "ifPresent", "ifPresentOrElse"
  ]

  const FACTORIES: seq<string> := [
    "of", "copyOf", "entry", "ofEntries", "emptyList", "emptySet", "emptyMap"
  ]

  const COLLECTION_METHODS: seq<string> := [
    "get", "put", "add", "remove", "contains", "containsKey", "getOrDefault", "computeIfAbsent", "size",
    "asList"
  ]

  predicate IsJavaKeyword(w: string) {
    || w in KEYWORDS_A_TO_D
    || w in KEYWORDS_E_TO_I
    || w in KEYWORDS_L_TO_R
    || w in KEYWORDS_S_TO_W
    || w in NEWER_KEYWORDS_AND_LITERALS
  }

  predicate IsStandardLibraryIdentifier(w: string) {
    || w in PACKAGE_SEGMENTS
    || w in JAVA_LANG
    || w in COLLECTION_TYPES
    || w in FUNCTIONAL_TYPES
    || w in PRINT_MEMBERS
    || w in STREAM_METHODS
    || w in COLLECTORS
    || w in STRING_METHODS
    || w in OBJECT_METHODS
    || w in OPTIONAL_METHODS
    || w in FACTORIES
    || w in COLLECTION_METHODS
  }

  predicate IsReserved(w: string) {
    IsJavaKeyword(w) || IsStandardLibraryIdentifier(w)
  }

  const RESERVED_LISTS: seq<seq<string>> := [
    KEYWORDS_A_TO_D, KEYWORDS_E_TO_I, KEYWORDS_L_TO_R, KEYWORDS_S_TO_W, NEWER_KEYWORDS_AND_LITERALS,
    PACKAGE_SEGMENTS, JAVA_LANG, COLLECTION_TYPES, FUNCTIONAL_TYPES, PRINT_MEMBERS, STREAM_METHODS, COLLECTORS,
    STRING_METHODS, OBJECT_METHODS, OPTIONAL_METHODS, FACTORIES, COLLECTION_METHODS
  ]

  /** The word is in one of the lists. */
  predicate IsListed(w: string) {
    exists k :: 0 <= k < |RESERVED_LISTS| && w in RESERVED_LISTS[k]
  }

  /** Exactly the listed words are reserved. */
  lemma ReservedIffListed(w: string)
    ensures IsReserved(w) <==> IsListed(w)
  {
    var all := RESERVED_LISTS;
    assert all[0] == KEYWORDS_A_TO_D && all[1] == KEYWORDS_E_TO_I && all[2] == KEYWORDS_L_TO_R;
    assert all[3] == KEYWORDS_S_TO_W && all[4] == NEWER_KEYWORDS_AND_LITERALS && all[5] == PACKAGE_SEGMENTS;
    assert all[6] == JAVA_LANG && all[7] == COLLECTION_TYPES && all[8] == FUNCTIONAL_TYPES;
    assert all[9] == PRINT_MEMBERS && all[10] == STREAM_METHODS && all[11] == COLLECTORS;
    assert all[12] == STRING_METHODS && all[13] == OBJECT_METHODS && all[14] == OPTIONAL_METHODS;
    assert all[15] == FACTORIES && all[16] == COLLECTION_METHODS;
  }

  predicate AllLetters(words: seq<string>) {
    forall k :: 0 <= k < |words| ==> words[k] != [] && Letters(words[k])
  }

  lemma KeywordsAToDAreLetters()
    ensures AllLetters(KEYWORDS_A_TO_D)
  {
  }

  lemma KeywordsEToIAreLetters()
    ensures AllLetters(KEYWORDS_E_TO_I)
  {
  }

  lemma KeywordsLToRAreLetters()
    ensures AllLetters(KEYWORDS_L_TO_R)
  {
  }

  lemma KeywordsSToWAreLetters()
    ensures AllLetters(KEYWORDS_S_TO_W)
  {
  }

  lemma NewerKeywordsAreLetters()
    ensures AllLetters(NEWER_KEYWORDS_AND_LITERALS)
  {
  }

  lemma PackagesAreLetters()
    ensures AllLetters(PACKAGE_SEGMENTS)
  {
  }

  lemma JavaLangAreLetters()
    ensures AllLetters(JAVA_LANG)
  {
  }

  lemma CollectionsAreLetters()
    ensures AllLetters(COLLECTION_TYPES)
  {
  }

  lemma FunctionalAreLetters()
    ensures AllLetters(FUNCTIONAL_TYPES) && AllLetters(PRINT_MEMBERS)
  {
  }

  lemma StreamsAreLetters()
    ensures AllLetters(STREAM_METHODS)
  {
  }

  lemma CollectorsAreLetters()
    ensures AllLetters(COLLECTORS)
  {
  }

  lemma StringsAreLetters()
    ensures AllLetters(STRING_METHODS)
  {
  }

  lemma ObjectsAreLetters()
    ensures AllLetters(OBJECT_METHODS) && AllLetters(OPTIONAL_METHODS)
  {
  }

  lemma FactoriesAreLetters()
    ensures AllLetters(FACTORIES) && AllLetters(COLLECTION_METHODS)
  {
  }

  /** Reserved words consist of ASCII letters only, so no placeholder name is reserved. */
  lemma ReservedLetters(w: string)
    requires IsReserved(w)
    ensures w != [] && Letters(w)
  {
    KeywordsAToDAreLetters();
    KeywordsEToIAreLetters();
    KeywordsLToRAreLetters();
    KeywordsSToWAreLetters();
    NewerKeywordsAreLetters();
    PackagesAreLetters();
    JavaLangAreLetters();
    CollectionsAreLetters();
    FunctionalAreLetters();
    StreamsAreLetters();
    CollectorsAreLetters();
    StringsAreLetters();
    ObjectsAreLetters();
    FactoriesAreLetters();
  }
}
