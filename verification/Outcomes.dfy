/** The controlled failures of the engine, by error code. */
module Outcomes {

  datatype Error =
    | MathInvalid            // GEOMETRY_MATH_INVALID
    | SpectrumInvalid        // GEOMETRY_SPECTRUM_INVALID
    | SpectralWorkLimit      // GEOMETRY_SPECTRAL_WORK_LIMIT
    | CycleSearchLimit       // GEOMETRY_CYCLE_SEARCH_LIMIT
    | GraphInvalid           // GEOMETRY_GRAPH_INVALID
    | FormanWeightMissing    // GEOMETRY_FORMAN_WEIGHT_MISSING
    | JsonInvalid            // JSON_INVALID
    | JsonDuplicateKey       // JSON_DUPLICATE_KEY
    | JsonFloatForbidden     // JSON_FLOAT_FORBIDDEN
    | JsonConstantForbidden  // JSON_CONSTANT_FORBIDDEN
    | JsonTrailingData       // JSON_TRAILING_DATA
    | JsonNestingTooDeep     // JSON_NESTING_TOO_DEEP
    | CanonicalInvalid       // CANONICAL_INVALID
    | ContractInvalid        // CONTRACT_INVALID
    | ContractFieldMissing   // CONTRACT_FIELD_MISSING
    | ContractFieldUnexpected    // CONTRACT_FIELD_UNEXPECTED
    | GeometryPolicyInvalid  // GEOMETRY_POLICY_INVALID
    | GeometryModuleUnsupported      // GEOMETRY_MODULE_UNSUPPORTED
    | GeometryFixtureSetUnsupported  // GEOMETRY_FIXTURE_SET_UNSUPPORTED
    | GeometryQuantizeUnsupported    // GEOMETRY_QUANTIZE_UNSUPPORTED
    | GeometryFormanModeUnsupported  // GEOMETRY_FORMAN_MODE_UNSUPPORTED
    | GeometryFormanLearningForbidden    // GEOMETRY_FORMAN_LEARNING_FORBIDDEN
    | DecisionInvalid        // DECISION_INVALID
    | SchemaUnsupported      // SCHEMA_UNSUPPORTED
    | DecisionHashMismatch   // DECISION_HASH_MISMATCH
    | ReceiptHashMismatch    // RECEIPT_HASH_MISMATCH
    | ManifestMissing        // MANIFEST_MISSING
    | ManifestInvalid        // MANIFEST_INVALID
    | ManifestHashMismatch   // MANIFEST_HASH_MISMATCH
    | ManifestCanonicalMismatch  // MANIFEST_CANONICAL_MISMATCH
    | ManifestArtifactMissing    // MANIFEST_ARTIFACT_MISSING
    | ManifestArtifactTampered   // MANIFEST_ARTIFACT_TAMPERED
    | ManifestFileSetMismatch    // MANIFEST_FILE_SET_MISMATCH
    | ManifestRunMismatch        // MANIFEST_RUN_MISMATCH
    | ActionStreamEmpty      // ACTION_STREAM_EMPTY
    | ActionIdDuplicate      // ACTION_ID_DUPLICATE
    | ActionSequenceDuplicate    // ACTION_SEQUENCE_DUPLICATE
    | ActionSequenceOrder    // ACTION_SEQUENCE_ORDER
    | RunArtifactMissing     // RUN_ARTIFACT_MISSING, INPUT_READ_FAILED
    | SummaryInvalid         // SUMMARY_INVALID
    | SummaryMismatch        // SUMMARY_MISMATCH
    | PolicyCaptureMismatch  // POLICY_CAPTURE_MISMATCH
    | PolicyCanonicalMismatch    // POLICY_CANONICAL_MISMATCH
    | ImplementationInvalid  // IMPLEMENTATION_INVALID
    | ImplementationHashMismatch // IMPLEMENTATION_HASH_MISMATCH
    | ImplementationCanonicalMismatch  // IMPLEMENTATION_CANONICAL_MISMATCH
    | RunOriginMismatch      // RUN_ORIGIN_MISMATCH
    | ActionCaptureMismatch  // ACTION_CAPTURE_MISMATCH
    | ActionCanonicalMismatch    // ACTION_CANONICAL_MISMATCH
    | DecisionCanonicalMismatch  // DECISION_CANONICAL_MISMATCH
    | DecisionLineageMismatch    // DECISION_LINEAGE_MISMATCH
    | ReceiptCanonicalMismatch   // RECEIPT_CANONICAL_MISMATCH
    | ReceiptLineageMismatch // RECEIPT_LINEAGE_MISMATCH
    | EventLogMismatch       // EVENT_LOG_MISMATCH
    | GeometryArtifactMismatch   // GEOMETRY_ARTIFACT_MISMATCH
    | RunArtifactSetMismatch // RUN_ARTIFACT_SET_MISMATCH
    | ReplayImplementationMismatch  // REPLAY_IMPLEMENTATION_MISMATCH
    | ReplayDivergence       // REPLAY_DIVERGENCE

  datatype Result<+T> = Success(value: T) | Failure(error: Error) {
    predicate IsFailure() {
      Failure?
    }

    function PropagateFailure<U>(): Result<U>
      requires Failure?
    {
      Failure(error)
    }

    function Extract(): T
      requires Success?
    {
      value
    }
  }
}
