/** The server error codes the modelled operations return, by name. */
module ErrorCodes {

  datatype ErrorCode =
    | NoError                     // TRI_ERROR_NO_ERROR
    | Internal                    // TRI_ERROR_INTERNAL
    | BadParameter                // TRI_ERROR_BAD_PARAMETER
    | Forbidden                   // TRI_ERROR_FORBIDDEN
    | DocumentNotFound            // TRI_ERROR_ARANGO_DOCUMENT_NOT_FOUND
    | Conflict                    // TRI_ERROR_ARANGO_CONFLICT
    | ClusterTimeout              // TRI_ERROR_CLUSTER_TIMEOUT
    | ClusterConnectionLost       // TRI_ERROR_CLUSTER_CONNECTION_LOST
    | ClusterBackendUnavailable   // TRI_ERROR_CLUSTER_BACKEND_UNAVAILABLE
    | DataSourceNotFound          // TRI_ERROR_ARANGO_DATA_SOURCE_NOT_FOUND
    | ClusterShardGone            // TRI_ERROR_CLUSTER_SHARD_GONE
    | ClusterMustNotSpecifyKey    // TRI_ERROR_CLUSTER_MUST_NOT_SPECIFY_KEY
    | Other(num: int)             // any other code a collaborator reports
}
