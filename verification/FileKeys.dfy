/** The keys of the bandwidth file format, by the version that introduced them. */
module FileKeys {

  // ----- Header keys

  const SELF_INITIALIZED := {"software", "software_version", "file_created", "latest_bandwidth"}

  const HEADER_V1_1 := {"earliest_bandwidth", "generator_started"}

  const HEADER_V1_2 := {"number_eligible_relays", "minimum_number_eligible_relays", "number_consensus_relays",
                        "percent_eligible_relays", "minimum_percent_eligible_relays"}

  const HEADER_V1_3 := {"scanner_country", "destinations_countries"}

  const EXCLUDED := "recent_measurements_excluded_"

  const EXCLUDED_COUNTS := {EXCLUDED + "error_count", EXCLUDED + "near_count", EXCLUDED + "old_count",
                            EXCLUDED + "few_count"}

  const RECENT_COUNTS := {"recent_consensus_count", "recent_priority_list_count", "recent_priority_relay_count",
                          "recent_measurement_attempt_count", "recent_measurement_failure_count"}

  const HEADER_V1_4 := RECENT_COUNTS + {"time_to_report_half_network"} + EXCLUDED_COUNTS

  const NETWORK_AVERAGES := {"mu", "muf"}

  const HEADER_TOR_AND_AUTHORITY := {"tor_version", "dirauth_nickname"}

  /** The keys a header takes from its arguments. */
  const HEADER_INIT_KEYS := HEADER_V1_1 + HEADER_V1_3 + HEADER_V1_2 + HEADER_V1_4 + HEADER_TOR_AND_AUTHORITY

  /** The keys written after the version, in alphabetical order. */
  const HEADER_UNORDERED_KEYS := SELF_INITIALIZED + HEADER_INIT_KEYS + NETWORK_AVERAGES

  const HEADER_ALL_KEYS := {"version"} + HEADER_UNORDERED_KEYS

  // ----- Line keys

  const LINE_V0 := {"node_id", "bw"}

  const LINE_INTS_V1_1 := {"rtt", "success", "error_stream", "error_circ", "error_misc"}

  const LINE_TEXTS := {"master_key_ed25519", "nick", "time", "consensus_bandwidth_is_unmeasured", "r_strm",
                       "r_strm_filt"}

  /** Counted, but not read as integers. */
  const LINE_ERROR_TEXTS := {"error_second_relay", "error_destination"}

  const LINE_INTS_V1_2 := {"bw_median", "bw_mean", "desc_bw_avg", "desc_bw_bur", "desc_bw_obs_last", "desc_bw_obs_mean",
                           "consensus_bandwidth"}

  const RELAY_COUNTS := {"relay_in_recent_consensus_count", "relay_recent_priority_list_count",
                         "relay_recent_measurement_attempt_count", "relay_recent_measurement_failure_count"}

  const RELAY_EXCLUDED := "relay_" + EXCLUDED

  const RELAY_EXCLUDED_COUNTS := {RELAY_EXCLUDED + "error_count", RELAY_EXCLUDED + "near_count",
                                  RELAY_EXCLUDED + "old_count", RELAY_EXCLUDED + "few_count"}

  const VOTE_KEYS := {"vote", "unmeasured", "under_min_report"}

  const LINE_V1_4 := RELAY_COUNTS + RELAY_EXCLUDED_COUNTS + VOTE_KEYS

  const LINE_V1_6 := {"xoff_recv", "xoff_sent"}

  /** The keys read as integers. */
  const LINE_INT_KEYS := {"bw"} + LINE_INTS_V1_1 + LINE_INTS_V1_2 + LINE_V1_4 + LINE_V1_6

  const LINE_KEYS := LINE_V0 + LINE_TEXTS + LINE_ERROR_TEXTS + LINE_INT_KEYS

  // ----- What they are made of

  predicate IsKeyChar(c: char) { 'a' <= c <= 'z' || '0' <= c <= '9' || c == '_' }

  /** A key starts with a letter and has no separator in it. */
  predicate IsKey(k: string) { k != [] && 'a' <= k[0] <= 'z' && forall i :: 0 <= i < |k| ==> IsKeyChar(k[i]) }

  lemma KeyConcat(a: string, b: string)
    requires IsKey(a) && IsKey(b)
    ensures IsKey(a + b)
  {
  }

  lemma CountSuffixes()
    ensures IsKey("error_count") && IsKey("near_count") && IsKey("old_count") && IsKey("few_count")
  {
  }

  lemma CountsWithPrefix(prefix: string, k: string)
    requires IsKey(prefix)
    requires k in {prefix + "error_count", prefix + "near_count", prefix + "old_count", prefix + "few_count"}
    ensures IsKey(k)
  {
    CountSuffixes();
    KeyConcat(prefix, "error_count");
    KeyConcat(prefix, "near_count");
    KeyConcat(prefix, "old_count");
    KeyConcat(prefix, "few_count");
  }

  lemma ExcludedPrefixes()
    ensures IsKey(EXCLUDED) && IsKey(RELAY_EXCLUDED)
  {
    assert IsKey("relay_");
    KeyConcat("relay_", EXCLUDED);
  }

  lemma ExcludedCountsAreKeys(k: string)
    requires k in EXCLUDED_COUNTS + RELAY_EXCLUDED_COUNTS
    ensures IsKey(k)
  {
    ExcludedPrefixes();
    CountsWithPrefix(if k in EXCLUDED_COUNTS then EXCLUDED else RELAY_EXCLUDED, k);
  }

  lemma PriorityCountsAreKeys()
    ensures IsKey("recent_priority_list_count") && IsKey("recent_priority_relay_count")
  {
  }

  lemma MeasurementCountsAreKeys()
    ensures IsKey("recent_measurement_attempt_count") && IsKey("recent_measurement_failure_count")
  {
  }

  lemma RecentCountsAreKeys(k: string)
    requires k in RECENT_COUNTS
    ensures IsKey(k)
  {
    PriorityCountsAreKeys();
    MeasurementCountsAreKeys();
    assert IsKey("recent_consensus_count");
  }

  lemma RelayMeasurementCountsAreKeys()
    ensures IsKey("relay_recent_measurement_attempt_count")
  {
  }

  lemma RelayFailureCountsAreKeys()
    ensures IsKey("relay_recent_measurement_failure_count")
  {
  }

  lemma RelayPriorityCountsAreKeys()
    ensures IsKey("relay_in_recent_consensus_count") && IsKey("relay_recent_priority_list_count")
  {
  }

  lemma RelayCountsAreKeys(k: string)
    requires k in RELAY_COUNTS
    ensures IsKey(k)
  {
    RelayMeasurementCountsAreKeys();
    RelayFailureCountsAreKeys();
    RelayPriorityCountsAreKeys();
  }

  lemma SelfInitializedAreKeys(k: string)
    requires k in SELF_INITIALIZED + {"version", "time_to_report_half_network"}
    ensures IsKey(k)
  {
  }

  lemma InitializedAreKeys(k: string)
    requires k in HEADER_V1_1 + HEADER_V1_3 + NETWORK_AVERAGES + HEADER_TOR_AND_AUTHORITY
    ensures IsKey(k)
  {
  }

  lemma ProgressKeysAreKeys(k: string)
    requires k in HEADER_V1_2
    ensures IsKey(k)
  {
  }

  lemma ShortLineKeysAreKeys(k: string)
    requires k in LINE_V0 + LINE_INTS_V1_1 + LINE_ERROR_TEXTS + LINE_V1_6
    ensures IsKey(k)
  {
  }

  lemma LongTextKeysAreKeys()
    ensures IsKey("master_key_ed25519") && IsKey("consensus_bandwidth_is_unmeasured")
  {
  }

  lemma TextKeysAreKeys(k: string)
    requires k in LINE_TEXTS
    ensures IsKey(k)
  {
    LongTextKeysAreKeys();
  }

  lemma BandwidthKeysAreKeys(k: string)
    requires k in LINE_INTS_V1_2
    ensures IsKey(k)
  {
  }

  lemma VoteKeysAreKeys(k: string)
    requires k in VOTE_KEYS
    ensures IsKey(k)
  {
  }

  lemma HeaderKeysAreKeys(k: string)
    requires k in HEADER_ALL_KEYS
    ensures IsKey(k)
  {
    if k in EXCLUDED_COUNTS { ExcludedCountsAreKeys(k); }
    else if k in RECENT_COUNTS { RecentCountsAreKeys(k); }
    else if k in HEADER_V1_2 { ProgressKeysAreKeys(k); }
    else if k in SELF_INITIALIZED + {"version", "time_to_report_half_network"} { SelfInitializedAreKeys(k); }
    else { InitializedAreKeys(k); }
  }

  lemma LineKeysAreKeys(k: string)
    requires k in LINE_KEYS
    ensures IsKey(k)
  {
    if k in VOTE_KEYS { VoteKeysAreKeys(k); }
    else if k in RELAY_EXCLUDED_COUNTS { ExcludedCountsAreKeys(k); }
    else if k in RELAY_COUNTS { RelayCountsAreKeys(k); }
    else if k in LINE_INTS_V1_2 { BandwidthKeysAreKeys(k); }
    else if k in LINE_TEXTS { TextKeysAreKeys(k); }
    else { ShortLineKeysAreKeys(k); }
  }

  // ----- The format

  /** The keys of a format: those of headers, and those of lines. */
  datatype Format = Format(init: set<string>, averages: set<string>, line: set<string>, ints: set<string>) {
    function Unordered(): set<string> { SELF_INITIALIZED + init + averages }

    function Header(): set<string> { {"version"} + Unordered() }

    /** No key has a separator; the version comes first only; a header takes neither the
        keys it sets itself nor the averages from its arguments. */
    ghost predicate Valid() {
      && (forall k :: k in Header() ==> IsKey(k)) && (forall k :: k in line ==> IsKey(k))
      && "version" !in Unordered() && init !! averages && SELF_INITIALIZED !! averages && init !! SELF_INITIALIZED
      && ints <= line && "node_id" in line - ints && "bw" in line && "node_id" != "bw"
    }
  }

  const V1 := Format(HEADER_INIT_KEYS, NETWORK_AVERAGES, LINE_KEYS, LINE_INT_KEYS)

  lemma VersionApart()
    ensures "version" !in SELF_INITIALIZED + HEADER_V1_1 + HEADER_V1_2 + HEADER_V1_3
  {
  }

  lemma VersionApartFromCounts()
    ensures "version" !in HEADER_V1_4 + HEADER_TOR_AND_AUTHORITY + NETWORK_AVERAGES
  {
  }

  lemma AveragesApart()
    ensures NETWORK_AVERAGES !! HEADER_V1_1 + HEADER_V1_3 + HEADER_TOR_AND_AUTHORITY
    ensures NETWORK_AVERAGES !! HEADER_V1_2
  {
  }

  lemma AveragesApartFromRecentCounts()
    ensures NETWORK_AVERAGES !! RECENT_COUNTS + {"time_to_report_half_network"}
  {
  }

  lemma AveragesApartFromExcludedCounts()
    ensures NETWORK_AVERAGES !! EXCLUDED_COUNTS
  {
    assert forall k :: k in EXCLUDED_COUNTS ==> |k| > |EXCLUDED|;
    assert |EXCLUDED| == 29;
  }

  lemma SelfInitializedApart()
    ensures SELF_INITIALIZED !! NETWORK_AVERAGES
    ensures SELF_INITIALIZED !! HEADER_V1_1 + HEADER_V1_3 + HEADER_TOR_AND_AUTHORITY
    ensures SELF_INITIALIZED !! HEADER_V1_2
  {
  }

  lemma SelfInitializedApartFromRecentCounts()
    ensures SELF_INITIALIZED !! RECENT_COUNTS + {"time_to_report_half_network"}
  {
  }

  lemma SelfInitializedApartFromExcludedCounts()
    ensures SELF_INITIALIZED !! EXCLUDED_COUNTS
  {
    assert forall k :: k in EXCLUDED_COUNTS ==> |k| > |EXCLUDED|;
    assert |EXCLUDED| == 29;
  }

  lemma InitKeysApart()
    ensures HEADER_INIT_KEYS !! NETWORK_AVERAGES && SELF_INITIALIZED !! NETWORK_AVERAGES
    ensures HEADER_INIT_KEYS !! SELF_INITIALIZED
  {
    AveragesApart();
    AveragesApartFromRecentCounts();
    AveragesApartFromExcludedCounts();
    SelfInitializedApart();
    SelfInitializedApartFromRecentCounts();
    SelfInitializedApartFromExcludedCounts();
  }

  lemma NodeIdIsText()
    ensures "node_id" !in LINE_INTS_V1_1 + LINE_INTS_V1_2 + LINE_V1_6
  {
  }

  lemma NodeIdIsNoCount()
    ensures "node_id" !in LINE_V1_4
  {
  }

  const RATIOS := {"r_strm", "r_strm_filt"}

  lemma RatiosApart()
    ensures RATIOS !! {"bw"} + LINE_INTS_V1_1 + LINE_V1_6 + VOTE_KEYS
    ensures RATIOS !! LINE_INTS_V1_2
  {
  }

  lemma RatiosApartFromCounts()
    ensures RATIOS !! RELAY_COUNTS
    ensures RATIOS !! RELAY_EXCLUDED_COUNTS
  {
    assert forall k :: k in RELAY_EXCLUDED_COUNTS ==> |k| > |RELAY_EXCLUDED|;
    assert |RELAY_EXCLUDED| == 35;
  }

  lemma RatiosAreTexts()
    ensures RATIOS !! LINE_INT_KEYS
  {
    RatiosApart();
    RatiosApartFromCounts();
  }

  lemma StatsKeysAreInts()
    ensures {"desc_bw_avg", "desc_bw_bur", "desc_bw_obs_last", "desc_bw_obs_mean"} <= LINE_INT_KEYS * LINE_KEYS
  {
  }

  lemma VersionIsFirst()
    ensures "version" !in HEADER_UNORDERED_KEYS
  {
    VersionApart();
    VersionApartFromCounts();
  }

  lemma NodeIdIsNoInteger()
    ensures "node_id" in LINE_KEYS - LINE_INT_KEYS && "bw" in LINE_KEYS && "node_id" != "bw"
  {
    NodeIdIsText();
    NodeIdIsNoCount();
  }

  lemma AllAreKeys()
    ensures (forall k :: k in HEADER_ALL_KEYS ==> IsKey(k)) && forall k :: k in LINE_KEYS ==> IsKey(k)
  {
    forall k | k in HEADER_ALL_KEYS ensures IsKey(k) { HeaderKeysAreKeys(k); }
    forall k | k in LINE_KEYS ensures IsKey(k) { LineKeysAreKeys(k); }
  }

  const NAMES := {"node_id", "bw"}

  lemma NamesApart()
    ensures NAMES !! VOTE_KEYS + RATIOS
    ensures NAMES !! LINE_INTS_V1_2
  {
  }

  lemma VotesApart()
    ensures VOTE_KEYS !! LINE_INTS_V1_2
  {
  }

  lemma ShortKeys(k: string)
    requires k in NAMES + VOTE_KEYS + RATIOS + LINE_INTS_V1_2
    ensures |k| <= 35
  {
  }

  lemma CountsApart()
    ensures RELAY_EXCLUDED_COUNTS !! NAMES + VOTE_KEYS + RATIOS + LINE_INTS_V1_2
  {
    assert forall k :: k in RELAY_EXCLUDED_COUNTS ==> |k| > |RELAY_EXCLUDED|;
    assert |RELAY_EXCLUDED| == 35;
    forall k | k in NAMES + VOTE_KEYS + RATIOS + LINE_INTS_V1_2 ensures |k| <= 35 { ShortKeys(k); }
  }

  /** The counts and bandwidths of a line are read as integers. */
  lemma CountsAreInts()
    ensures LINE_INTS_V1_1 + LINE_INTS_V1_2 + RELAY_COUNTS + RELAY_EXCLUDED_COUNTS <= LINE_INT_KEYS
    ensures VOTE_KEYS + LINE_V1_6 <= LINE_INT_KEYS && "bw" in LINE_INT_KEYS
  {
  }

  /** The keys of the format are as the round trip of a file needs them. */
  lemma V1IsValid()
    ensures V1.Valid() && V1.Header() == HEADER_ALL_KEYS && V1.averages == NETWORK_AVERAGES
  {
    AllAreKeys();
    VersionIsFirst();
    InitKeysApart();
    NodeIdIsNoInteger();
  }
}
