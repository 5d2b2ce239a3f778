/** The objects of a progressive rollout (api/v1alpha1/rollout_types.go). */
module RolloutTypes {
  datatype RolloutPhase = New | Progressing | Paused | Healthy | Degraded | RollingBack | Failed | RolledBack
}
